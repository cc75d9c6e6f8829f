/**
  The DXF group-code text parser.

  The input is the file's text as a sequence of lines, each one terminated by
  a newline. The stream the C++ parser reads from is modelled by `Stream`:
  the lines not read yet, the parser's line counter (used only in error
  messages) and whether the stream is still good. A read that runs past the
  end leaves the stream failed; a failed stream ignores a seek, so every
  loop guarded by `input.good()` stops there.
 */
module DxfParser {
  import opened Wrappers
  import opened Status
  import opened Text

  // ---------------------------------------------------------------------
  // Records
  // ---------------------------------------------------------------------

  /** One group code with its value line. */
  datatype Pair = Pair(code: int, value: string)

  /** An entity: its type (the code-0 value that opened it), handle (code 5), layer (code 8) and every pair read for it. */
  datatype Entity = Entity(kind: string, handle: string, layer: string, data: seq<Pair>)

  /** A block definition: name (code 2), handle (code 5) and the entities nested in it. */
  datatype Block = Block(name: string, handle: string, entities: seq<Entity>)

  /** A parsed drawing with its two lookup tables (each table maps a key straight to its record). */
  datatype DxfFile = DxfFile(
    version: string,
    entities: seq<Entity>,
    blocks: seq<Block>,
    entityByHandle: map<string, Entity>,
    blockByName: map<string, Block>)

  const EmptyFile := DxfFile("", [], [], map[], map[])

  // ---------------------------------------------------------------------
  // Entity accessors
  // ---------------------------------------------------------------------

  /** `i` is the first pair of `data` carrying `code`. */
  predicate IsFirstWithCode(data: seq<Pair>, code: int, i: nat) {
    i < |data| && data[i].code == code && forall j :: 0 <= j < i ==> data[j].code != code
  }

  /** `DXFEntity::GetString`: the value of the first pair with `code`, NotFound when there is none. */
  function GetString(e: Entity, code: int): (r: Result<string, Error>)
    ensures r.Ok? <==> exists i: nat :: IsFirstWithCode(e.data, code, i)
    ensures r.Ok? ==> exists i: nat :: IsFirstWithCode(e.data, code, i) && r.value == e.data[i].value
    ensures r.Err? ==> r.error.code == NotFound
  {
    FirstValue(e.data, code, e.kind, 0)
  }

  function FirstValue(data: seq<Pair>, code: int, kind: string, from: nat): (r: Result<string, Error>)
    requires from <= |data|
    requires forall j :: 0 <= j < from ==> data[j].code != code
    ensures r.Ok? ==> exists i: nat :: IsFirstWithCode(data, code, i) && r.value == data[i].value
    ensures r.Err? ==> r.error.code == NotFound && forall i: nat :: !IsFirstWithCode(data, code, i)
    decreases |data| - from
  {
    if from == |data| then
      Err(Error(NotFound, "Group code " + IntToString(code) + " not found in entity " + kind))
    else if data[from].code == code then
      assert IsFirstWithCode(data, code, from);
      Ok(data[from].value)
    else FirstValue(data, code, kind, from + 1)
  }

  /** `DXFEntity::GetInt`: `GetString` read as a 32-bit integer, InvalidArgument when it is not one. */
  function GetInt(e: Entity, code: int): (r: Result<int, Error>)
    ensures r.Ok? ==> GetString(e, code).Ok? && ParseInt32(GetString(e, code).value) == Some(r.value)
    ensures GetString(e, code).Err? ==> r.Err? && r.error.code == NotFound
    ensures GetString(e, code).Ok? && ParseInt32(GetString(e, code).value).None? ==>
              r.Err? && r.error.code == InvalidArgument
  {
    match GetString(e, code)
    case Err(err) => Err(err)
    case Ok(s) =>
      match ParseInt32(s)
      case Some(v) => Ok(v)
      case None => Err(Error(InvalidArgument, "Cannot convert '" + s + "' to int"))
  }

  // ---------------------------------------------------------------------
  // The stream and ReadPair
  // ---------------------------------------------------------------------

  /** The lines still to read, the line counter, and whether the stream is good. */
  datatype Stream = Stream(rest: seq<string>, lineNo: nat, good: bool)

  /** Decreases with every line read and when the stream fails. */
  function Measure(st: Stream): nat {
    2 * |st.rest| + (if st.good then 1 else 0)
  }

  datatype Read = Read(pair: Result<Pair, Error>, next: Stream)

  /**
    `ReadPair`: reads a code line and a value line. End of input before the
    code line is OutOfRange; a missing value line is DataLoss; a code that is
    not an integer once trimmed is InvalidArgument (both lines are consumed);
    otherwise the value is the value line trimmed of ASCII whitespace.
   */
  function ReadPair(st: Stream): (r: Read)
    ensures Measure(r.next) <= Measure(st)
    ensures st.good ==> Measure(r.next) < Measure(st)
  {
    if !st.good || |st.rest| == 0 then
      Read(Err(Error(OutOfRange, "End of file")), Stream([], st.lineNo, false))
    else if |st.rest| == 1 then
      Read(Err(Error(DataLoss, "Failed to read value at line " + IntToString(st.lineNo + 1))),
           Stream([], st.lineNo + 1, false))
    else
      Read(DecodePair(st.rest[0], st.rest[1], st.lineNo), Stream(st.rest[2..], st.lineNo + 2, true))
  }

  /**
    The pair two lines read at line `lineNo` stand for: InvalidArgument when
    the trimmed code line is not a 32-bit integer, else the code with the
    value line trimmed of ASCII whitespace at both ends, and of nothing else.
   */
  function DecodePair(codeLine: string, valueLine: string, lineNo: nat): Result<Pair, Error> {
    var trimmed := Strip(codeLine, Ascii);
    match ParseInt32(trimmed)
    case None =>
      Err(Error(InvalidArgument, "Invalid group code '" + trimmed + "' at line " + IntToString(lineNo)))
    case Some(code) =>
      Ok(Pair(code, Strip(valueLine, Ascii)))
  }

  /**
    What `ReadPair` does, case by case: a pair is read exactly when two lines
    remain on a good stream and the first is a 32-bit integer once trimmed;
    the error code tells end of input, a missing value line and a bad code
    apart; a successful read consumes exactly two lines.
   */
  lemma ReadPairSpec(st: Stream)
    ensures var r := ReadPair(st);
            && (r.pair.Ok? <==> st.good && |st.rest| >= 2 && ParseInt32(Strip(st.rest[0], Ascii)).Some?)
            && (r.pair.Ok? ==> r.pair.value == Pair(ParseInt32(Strip(st.rest[0], Ascii)).value, Strip(st.rest[1], Ascii)))
            && (r.pair.Err? ==> r.pair.error.code == (if !st.good || |st.rest| == 0 then OutOfRange
                                                     else if |st.rest| == 1 then DataLoss
                                                     else InvalidArgument))
            && (r.next.good <==> st.good && |st.rest| >= 2)
            && r.next.rest == (if st.good && |st.rest| >= 2 then st.rest[2..] else [])
            && (r.next.good ==> r.next.lineNo == st.lineNo + 2)
  {
  }

  /** The value of a decoded pair is the value line with outer ASCII whitespace cut off, and nothing else. */
  lemma DecodePairTrims(codeLine: string, valueLine: string, lineNo: nat)
    ensures var r := DecodePair(codeLine, valueLine, lineNo);
            r.Ok? ==> (exists i: nat :: IsTrimmedSlice(valueLine, r.value.value, i, Ascii))
                      && (r.value.value == [] || (!IsAsciiSpace(r.value.value[0])
                                                  && !IsAsciiSpace(r.value.value[|r.value.value| - 1])))
  {
    StripSlice(valueLine, Ascii);
  }

  /**
    `input.seekg(pos)` after a read: a good stream goes back to the saved
    position (the line counter keeps its increments); a failed one stays failed.
   */
  function Rewind(saved: Stream, after: Stream): Stream {
    if after.good then Stream(saved.rest, after.lineNo, true) else after
  }

  // ---------------------------------------------------------------------
  // Entities
  // ---------------------------------------------------------------------

  /** Stores one pair in an entity; codes 5 and 8 also set the handle and the layer. */
  function AddPair(e: Entity, p: Pair): Entity {
    var e2 := e.(data := e.data + [p]);
    if p.code == 5 then e2.(handle := p.value)
    else if p.code == 8 then e2.(layer := p.value)
    else e2
  }

  function AddPairs(e: Entity, ps: seq<Pair>): Entity
    decreases |ps|
  {
    if ps == [] then e else AddPairs(AddPair(e, ps[0]), ps[1..])
  }

  /** The value of the last pair of `ps` with `code`, or `dflt` when there is none. */
  function LastValue(ps: seq<Pair>, code: int, dflt: string): string
    decreases |ps|
  {
    if ps == [] then dflt
    else if ps[|ps| - 1].code == code then ps[|ps| - 1].value
    else LastValue(ps[..|ps| - 1], code, dflt)
  }

  /**
    `ParseEntity`: reads every non-zero pair into the entity until a code-0
    pair, which it pushes back, or a failed read.
   */
  function ParseEntity(st: Stream, kind: string): (r: (Entity, Stream))
    ensures Measure(r.1) <= Measure(st)
  {
    ParseEntityFrom(st, Entity(kind, "", "", []))
  }

  function ParseEntityFrom(st: Stream, e: Entity): (r: (Entity, Stream))
    ensures Measure(r.1) <= Measure(st)
    decreases Measure(st)
  {
    if !st.good then (e, st)
    else
      var rd := ReadPair(st);
      match rd.pair
      case Err(_) => (e, Rewind(st, rd.next))
      case Ok(p) =>
        if p.code == 0 then (e, Rewind(st, rd.next))
        else ParseEntityFrom(rd.next, AddPair(e, p))
  }

  // ---------------------------------------------------------------------
  // Sections
  // ---------------------------------------------------------------------

  /** The outcome of a section parser: a value and where reading stopped, or the error it returns. */
  datatype Parsed<T> = Done(value: T, next: Stream) | Failed(error: Error)

  predicate IsMarker(p: Pair, value: string) {
    p.code == 0 && p.value == value
  }

  /** `ParseHeader`: the pair read right after `9/$ACADVER` sets the version, up to `0/ENDSEC`. */
  function ParseHeader(st: Stream, version: string): (r: Parsed<string>)
    ensures r.Done? ==> Measure(r.next) <= Measure(st)
    decreases Measure(st)
  {
    if !st.good then Done(version, st)
    else
      var rd := ReadPair(st);
      match rd.pair
      case Err(e) => Failed(e)
      case Ok(p) =>
        if IsMarker(p, "ENDSEC") then Done(version, rd.next)
        else if p.code == 9 && p.value == "$ACADVER" then
          var vr := ReadPair(rd.next);
          ParseHeader(vr.next, if vr.pair.Ok? then vr.pair.value.value else version)
        else ParseHeader(rd.next, version)
  }

  /** `ParseEntities`: every code-0 value but ENDSEC starts an entity, appended in order. */
  function ParseEntities(st: Stream, ents: seq<Entity>): (r: Parsed<seq<Entity>>)
    ensures r.Done? ==> Measure(r.next) <= Measure(st)
    decreases Measure(st)
  {
    if !st.good then Done(ents, st)
    else
      var rd := ReadPair(st);
      match rd.pair
      case Err(e) => Failed(e)
      case Ok(p) =>
        if IsMarker(p, "ENDSEC") then Done(ents, rd.next)
        else if p.code == 0 then
          var (e, st2) := ParseEntity(rd.next, p.value);
          ParseEntities(st2, ents + [e])
        else ParseEntities(rd.next, ents)
  }

  /** The body of one block after `0/BLOCK`: code 2 names it, code 5 sets its handle, `0/ENDBLK` closes it, any other code-0 value starts a nested entity. */
  function ParseBlockBody(st: Stream, b: Block): (r: Parsed<Block>)
    ensures r.Done? ==> Measure(r.next) <= Measure(st)
    decreases Measure(st)
  {
    if !st.good then Done(b, st)
    else
      var rd := ReadPair(st);
      match rd.pair
      case Err(e) => Failed(e)
      case Ok(p) =>
        if p.code == 2 then ParseBlockBody(rd.next, Block(p.value, b.handle, b.entities))
        else if p.code == 5 then ParseBlockBody(rd.next, Block(b.name, p.value, b.entities))
        else if p.code == 0 then
          if p.value == "ENDBLK" then Done(b, rd.next)
          else
            var (e, st2) := ParseEntity(rd.next, p.value);
            ParseBlockBody(st2, Block(b.name, b.handle, b.entities + [e]))
        else ParseBlockBody(rd.next, b)
  }

  /** `ParseBlocks`: each `0/BLOCK` appends exactly one block, up to `0/ENDSEC`. */
  function ParseBlocks(st: Stream, blocks: seq<Block>): (r: Parsed<seq<Block>>)
    ensures r.Done? ==> Measure(r.next) <= Measure(st)
    decreases Measure(st)
  {
    if !st.good then Done(blocks, st)
    else
      var rd := ReadPair(st);
      match rd.pair
      case Err(e) => Failed(e)
      case Ok(p) =>
        if IsMarker(p, "ENDSEC") then Done(blocks, rd.next)
        else if IsMarker(p, "BLOCK") then
          match ParseBlockBody(rd.next, Block("", "", []))
          case Failed(e) => Failed(e)
          case Done(b, st2) => ParseBlocks(st2, blocks + [b])
        else ParseBlocks(rd.next, blocks)
  }

  /** An unknown section is read through its next `0/ENDSEC`; a failed read just ends the skip. */
  function SkipSection(st: Stream): (r: Stream)
    ensures Measure(r) <= Measure(st)
    decreases Measure(st)
  {
    if !st.good then st
    else
      var rd := ReadPair(st);
      match rd.pair
      case Err(_) => rd.next
      case Ok(p) => if IsMarker(p, "ENDSEC") then rd.next else SkipSection(rd.next)
  }

  /** The top-level loop of `Parse(istream)`: sections until `0/EOF` or the end of input. */
  function ParseSections(st: Stream, f: DxfFile): (r: Result<DxfFile, Error>)
    decreases Measure(st)
  {
    if !st.good then Ok(f)
    else
      var rd := ReadPair(st);
      match rd.pair
      case Err(e) => if e.code == OutOfRange then Ok(f) else Err(e)
      case Ok(p) =>
        if IsMarker(p, "SECTION") then
          var nr := ReadPair(rd.next);
          match nr.pair
          case Err(e) => Err(e)
          case Ok(np) =>
            if np.code != 2 then
              Err(Error(InvalidArgument, "Expected group code 2 after SECTION, got " + IntToString(np.code)))
            else if np.value == "HEADER" then
              match ParseHeader(nr.next, f.version)
              case Failed(e) => Err(e)
              case Done(v, st2) => ParseSections(st2, DxfFile(v, f.entities, f.blocks, f.entityByHandle, f.blockByName))
            else if np.value == "BLOCKS" then
              match ParseBlocks(nr.next, f.blocks)
              case Failed(e) => Err(e)
              case Done(bs, st2) => ParseSections(st2, DxfFile(f.version, f.entities, bs, f.entityByHandle, f.blockByName))
            else if np.value == "ENTITIES" then
              match ParseEntities(nr.next, f.entities)
              case Failed(e) => Err(e)
              case Done(es, st2) => ParseSections(st2, DxfFile(f.version, es, f.blocks, f.entityByHandle, f.blockByName))
            else ParseSections(SkipSection(nr.next), f)
        else if IsMarker(p, "EOF") then Ok(f)
        else ParseSections(rd.next, f)
  }

  /** `Parse(istream)`: the sections, then the lookup tables. */
  function Parse(lines: seq<string>): Result<DxfFile, Error> {
    match ParseSections(Stream(lines, 0, true), EmptyFile)
    case Err(e) => Err(e)
    case Ok(f) => Ok(BuildLookups(f))
  }

  /** `Parse(file_path)`: `None` stands for a file that cannot be opened. */
  function ParseFile(path: string, content: Option<seq<string>>): (r: Result<DxfFile, Error>)
    ensures content.None? ==> r.Err? && r.error.code == NotFound
    ensures content.Some? ==> r == Parse(content.value)
  {
    match content
    case None => Err(Error(NotFound, "Cannot open file: " + path))
    case Some(lines) => Parse(lines)
  }

  // ---------------------------------------------------------------------
  // Lookup tables
  // ---------------------------------------------------------------------

  /** Inserts every element with a non-empty key, in order, so a later one replaces an earlier one. */
  function IndexBy<T>(m: map<string, T>, xs: seq<T>, key: T -> string): map<string, T>
    decreases |xs|
  {
    if xs == [] then m
    else IndexBy(if key(xs[0]) != "" then m[key(xs[0]) := xs[0]] else m, xs[1..], key)
  }

  /** `xs[i]` is the last element of `xs` whose key is `k`. */
  predicate IsLastWithKey<T>(xs: seq<T>, key: T -> string, k: string, i: nat) {
    i < |xs| && key(xs[i]) == k && forall j :: i < j < |xs| ==> key(xs[j]) != k
  }

  /** The empty key is never added to an index. */
  lemma {:induction false} IndexByEmptyKey<T>(m: map<string, T>, xs: seq<T>, key: T -> string)
    ensures "" in IndexBy(m, xs, key) <==> "" in m
    decreases |xs|
  {
    if xs != [] {
      IndexByEmptyKey(if key(xs[0]) != "" then m[key(xs[0]) := xs[0]] else m, xs[1..], key);
    }
  }

  /** A key no element carries keeps what the starting map held under it. */
  lemma {:induction false} IndexByAbsent<T>(m: map<string, T>, xs: seq<T>, key: T -> string, k: string)
    requires forall i :: 0 <= i < |xs| ==> key(xs[i]) != k
    ensures k in IndexBy(m, xs, key) <==> k in m
    ensures k in m ==> IndexBy(m, xs, key)[k] == m[k]
    decreases |xs|
  {
    if xs != [] {
      assert forall i :: 0 <= i < |xs[1..]| ==> key(xs[1..][i]) != k by {
        forall i | 0 <= i < |xs[1..]| ensures key(xs[1..][i]) != k {
          assert xs[1..][i] == xs[i + 1];
        }
      }
      IndexByAbsent(if key(xs[0]) != "" then m[key(xs[0]) := xs[0]] else m, xs[1..], key, k);
    }
  }

  /** Under a non-empty key the index holds the last element with that key. */
  lemma {:induction false} IndexByLast<T>(m: map<string, T>, xs: seq<T>, key: T -> string, k: string, i: nat)
    requires k != "" && IsLastWithKey(xs, key, k, i)
    ensures k in IndexBy(m, xs, key) && IndexBy(m, xs, key)[k] == xs[i]
    decreases |xs|
  {
    var m' := if key(xs[0]) != "" then m[key(xs[0]) := xs[0]] else m;
    if i > 0 {
      assert IsLastWithKey(xs[1..], key, k, i - 1);
      IndexByLast(m', xs[1..], key, k, i - 1);
    } else {
      assert forall j :: 0 <= j < |xs[1..]| ==> key(xs[1..][j]) != k by {
        forall j | 0 <= j < |xs[1..]| ensures key(xs[1..][j]) != k {
          assert xs[1..][j] == xs[j + 1];
        }
      }
      IndexByAbsent(m', xs[1..], key, k);
    }
  }

  /** The entities of all blocks, block by block. */
  function BlockEntities(bs: seq<Block>): seq<Entity>
    decreases |bs|
  {
    if bs == [] then [] else bs[0].entities + BlockEntities(bs[1..])
  }

  /** `BuildLookups`: top-level entities first, then blocks by name, then the entities of blocks. */
  function BuildLookups(f: DxfFile): DxfFile {
    var byHandle := (e: Entity) => e.handle;
    f.(entityByHandle := IndexBy(IndexBy(map[], f.entities, byHandle), BlockEntities(f.blocks), byHandle),
       blockByName := IndexBy(map[], f.blocks, (b: Block) => b.name))
  }

  /**
    The entity index holds exactly the non-empty handles of top-level and
    block entities; a block entity wins over a top-level one, and within each
    group the later one wins. The block index holds the non-empty names, the
    later block winning.
   */
  lemma BuildLookupsSpec(f: DxfFile, h: string)
    ensures "" !in BuildLookups(f).entityByHandle && "" !in BuildLookups(f).blockByName
    ensures h != "" ==> forall i: nat :: IsLastWithKey(BlockEntities(f.blocks), (e: Entity) => e.handle, h, i) ==>
              h in BuildLookups(f).entityByHandle && BuildLookups(f).entityByHandle[h] == BlockEntities(f.blocks)[i]
    ensures h != "" && (forall i :: 0 <= i < |BlockEntities(f.blocks)| ==> BlockEntities(f.blocks)[i].handle != h) ==>
              forall i: nat :: IsLastWithKey(f.entities, (e: Entity) => e.handle, h, i) ==>
                h in BuildLookups(f).entityByHandle && BuildLookups(f).entityByHandle[h] == f.entities[i]
    ensures (forall i :: 0 <= i < |BlockEntities(f.blocks)| ==> BlockEntities(f.blocks)[i].handle != h)
            && (forall i :: 0 <= i < |f.entities| ==> f.entities[i].handle != h) ==>
              h !in BuildLookups(f).entityByHandle
    ensures h != "" ==> forall i: nat :: IsLastWithKey(f.blocks, (b: Block) => b.name, h, i) ==>
              h in BuildLookups(f).blockByName && BuildLookups(f).blockByName[h] == f.blocks[i]
    ensures (forall i :: 0 <= i < |f.blocks| ==> f.blocks[i].name != h) ==> h !in BuildLookups(f).blockByName
    ensures BuildLookups(f).version == f.version && BuildLookups(f).entities == f.entities
            && BuildLookups(f).blocks == f.blocks
  {
    var byHandle := (e: Entity) => e.handle;
    var byName := (b: Block) => b.name;
    var top := IndexBy(map[], f.entities, byHandle);
    IndexByEmptyKey(map[], f.entities, byHandle);
    IndexByEmptyKey(top, BlockEntities(f.blocks), byHandle);
    IndexByEmptyKey(map[], f.blocks, byName);
    if h != "" {
      forall i: nat | IsLastWithKey(BlockEntities(f.blocks), byHandle, h, i)
        ensures h in BuildLookups(f).entityByHandle && BuildLookups(f).entityByHandle[h] == BlockEntities(f.blocks)[i]
      {
        IndexByLast(top, BlockEntities(f.blocks), byHandle, h, i);
      }
      forall i: nat | IsLastWithKey(f.blocks, byName, h, i)
        ensures h in BuildLookups(f).blockByName && BuildLookups(f).blockByName[h] == f.blocks[i]
      {
        IndexByLast(map[], f.blocks, byName, h, i);
      }
    }
    if forall i :: 0 <= i < |BlockEntities(f.blocks)| ==> BlockEntities(f.blocks)[i].handle != h {
      IndexByAbsent(top, BlockEntities(f.blocks), byHandle, h);
      if h != "" {
        forall i: nat | IsLastWithKey(f.entities, byHandle, h, i)
          ensures h in BuildLookups(f).entityByHandle && BuildLookups(f).entityByHandle[h] == f.entities[i]
        {
          IndexByLast(map[], f.entities, byHandle, h, i);
        }
      }
      if forall i :: 0 <= i < |f.entities| ==> f.entities[i].handle != h {
        IndexByAbsent(map[], f.entities, byHandle, h);
      }
    }
    if forall i :: 0 <= i < |f.blocks| ==> f.blocks[i].name != h {
      IndexByAbsent(map[], f.blocks, byName, h);
    }
  }
}
