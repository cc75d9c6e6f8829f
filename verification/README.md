# Finetoo drawing graph and statement-consistency core, in Dafny

This project models the deterministic core of the Finetoo pipeline. It has two halves.

The C++ half turns ASCII DXF drawings into a typed property graph:
- the group-code text parser, with its one-pair lookahead and lookup tables;
- the graph builder: Entity and Block nodes, `gc_<code>` properties, REFERENCES edges and statistics;
- the DXF schema registry and its first-failure validator;
- the operation executor, whose eight handlers are all still stubs;
- the multi-drawing merge of the full-BOM tool;
- BOM and dimension extraction with the byte sanitiser;
- the string logic of the query service: prompt rendering, fence stripping, plan reading, BOM table layout and the plan loop.

The Python half is the logical-consistency experiment:
- the pattern-precedence statement parser;
- the entity/relation graph and its three contradiction rules;
- the second scorer's triple encoding and pairwise contradiction check;
- the generation of a Finetoo schema and its operation list from the entity graph;
- the protobuf-text export.

Everything is pure functions over immutable datatypes:
- The parser reads a `seq<string>` of lines through a `Stream` value: the remaining lines, a line counter, and whether the stream is still good.
- Python sets are iterated in sorted order (`StringOrder.SortSet`) where the output is a list.
- Contracts speak only of membership where Python leaves the order open.

Modules and files:
- `wrappers.dfy`: `Wrappers` (Option, Result, status codes) and `Seqs` (associativity, a descending insertion sort).
- `text.dfy`: `Text` (whitespace sets, strip, integer parsing and printing, find/split/join) and `StringOrder` (byte-wise string order, sorting a set).
- `dxf_parser.dfy`: `DxfParser`.
- `dxf_encoding.dfy` and `dxf_document.dfy`: `DxfEncoding` and `DxfDocument`, the lemmas that run the parser over encoded records.
- `schema.dfy`: `GraphSchema`.
- `graph.dfy`: `Graph`.
- `operations.dfy`: `Operations`.
- `merge.dfy`: `Merge`.
- `bom.dfy`: `Bom`.
- `query.dfy`: `Query`.
- `statements.dfy`: `Statements`.
- `consistency.dfy`: `Consistency`.
- `triples.dfy`: `Triples`.
- `finetoo_schema.dfy`: `FinetooSchema`.
- `finetoo_export.dfy`: `FinetooExport`.

The first and second scorers' `parse_statements` are the same text, so both use the one definition `Statements.ParseStatements`.

## Model

| member | source | states |
|---|---|---|
| DxfParser.GetString | src/parser/dxf_text_parser.cc:17-25 | the value of the first pair carrying the code is returned; NotFound exactly when no pair carries it |
| DxfParser.GetInt | src/parser/dxf_text_parser.cc:39-49 | a found value that reads as a 32-bit integer gives that integer; a missing code stays NotFound; an unreadable value is InvalidArgument |
| DxfParser.ReadPairSpec | src/parser/dxf_text_parser.cc:124-156 | a read consumes exactly two lines; end of input before the code line is OutOfRange, a missing value line DataLoss, a non-integer trimmed code InvalidArgument; otherwise the pair is the parsed code and the trimmed value |
| DxfParser.DecodePairTrims | src/parser/dxf_text_parser.cc:152-155 | the stored value is the value line with leading and trailing ASCII whitespace cut off and nothing else removed |
| DxfParser.ParseFile | src/parser/dxf_text_parser.cc:53-60 | a file that cannot be opened gives NotFound; otherwise the result is parsing its lines |
| DxfParser.IndexByLast | src/parser/dxf_text_parser.cc:294-305 | under a non-empty key, an index built in order holds the last element with that key |
| DxfParser.IndexByEmptyKey | src/parser/dxf_text_parser.cc:295-303 | the empty key is never inserted into an index |
| DxfParser.IndexByAbsent | src/parser/dxf_text_parser.cc:292-315 | a key no element carries keeps whatever the index held before |
| DxfParser.BuildLookupsSpec | src/parser/dxf_text_parser.cc:292-315 | neither table has the empty key; a block entity with the handle wins over a top-level one; otherwise the last top-level entity wins; a later block wins by name; keys no record carries are absent |
| DxfDocument.ParseEmpty | src/parser/dxf_text_parser.cc:62-122 | empty input parses successfully to an empty drawing |
| DxfDocument.EndOfInputEndsParse | src/parser/dxf_text_parser.cc:67-72 | running out of input at top level ends the parse successfully with what was read so far |
| DxfDocument.EofEndsParse | src/parser/dxf_text_parser.cc:113-115 | a `0/EOF` pair at top level ends the parse successfully, whatever follows |
| DxfDocument.EofPairEndsParse | src/parser/dxf_text_parser.cc:113-115 | the encoded `0/EOF` pair ends the parse whatever lines follow it |
| DxfDocument.TopLevelReadError | src/parser/dxf_text_parser.cc:68-74 | a top-level read error other than end of input is returned as the parse result |
| DxfDocument.StrayPairSkipped | src/parser/dxf_text_parser.cc:76-116 | a top-level pair that is neither `0/SECTION` nor `0/EOF` is ignored |
| DxfDocument.SectionNeedsName | src/parser/dxf_text_parser.cc:79-88 | `0/SECTION` followed by a pair whose code is not 2 is InvalidArgument |
| DxfDocument.SectionNameUnreadable | src/parser/dxf_text_parser.cc:80-82 | a failed read of the section name is returned as the parse result |
| DxfDocument.UnknownSectionSkipped | src/parser/dxf_text_parser.cc:101-110 | a section other than HEADER, BLOCKS and ENTITIES is skipped and parsing resumes after it |
| DxfDocument.HeaderSection | src/parser/dxf_text_parser.cc:92-94 | a HEADER section sets the version from the header reader and leaves every other field as it was |
| DxfDocument.BlocksSection | src/parser/dxf_text_parser.cc:95-97 | a BLOCKS section replaces the block list with what the block reader returned and leaves the rest |
| DxfDocument.EntitiesSection | src/parser/dxf_text_parser.cc:98-100 | an ENTITIES section replaces the entity list with what the entity reader returned and leaves the rest |
| DxfDocument.SectionErrorReturned | src/parser/dxf_text_parser.cc:92-100 | an error from the header, block or entity reader is the parse result |
| DxfDocument.SkipSwallowsErrors | src/parser/dxf_text_parser.cc:103-105 | a failed read while skipping ends the skip and is not reported |
| DxfDocument.SkipStep | src/parser/dxf_text_parser.cc:103-109 | skipping stops right after `0/ENDSEC` and passes over every other pair |
| DxfDocument.BadCodeInSkippedSection | src/parser/dxf_text_parser.cc:101-110 | an invalid group code inside an unknown section does not fail the parse: the skip stops there and parsing resumes at the next pair |
| DxfDocument.HeaderVersionSet | src/parser/dxf_text_parser.cc:171-175 | the pair read right after `9/$ACADVER` sets the version whatever its group code |
| DxfDocument.HeaderVersionUnread | src/parser/dxf_text_parser.cc:172-175 | when that read fails the version is kept and the header loop goes on |
| DxfDocument.HeaderEndsec | src/parser/dxf_text_parser.cc:165-168 | `0/ENDSEC` ends the header with the version unchanged |
| DxfDocument.HeaderOtherPair | src/parser/dxf_text_parser.cc:158-177 | any other header pair is ignored |
| DxfDocument.HeaderWithoutVersion | src/parser/dxf_text_parser.cc:158-180 | a header without `$ACADVER` leaves the version as it was, so a fresh drawing keeps an empty version |
| DxfDocument.HeaderVersionLines | src/parser/dxf_text_parser.cc:158-180 | the encoded `$ACADVER` pair followed by a version pair and `0/ENDSEC` yields that version and reads past the section end |
| DxfDocument.HeaderSectionLines | src/parser/dxf_text_parser.cc:79-94 | an encoded HEADER section sets the version and parsing continues ten lines later |
| DxfDocument.HeaderOnly | src/parser/dxf_text_parser.cc:62-122 | a header-only drawing parses to that version and leaves entities and blocks alone |
| DxfDocument.HeaderExample | src/parser/dxf_text_parser.cc:62-122 | the twelve-line header-only file gives version "AC1027" with no entities, no blocks and empty tables |
| DxfDocument.BlocksSectionLines | src/parser/dxf_text_parser.cc:182-228 | an encoded BLOCKS section of readable blocks appends exactly those blocks, in order |
| DxfDocument.EntitiesSectionLines | src/parser/dxf_text_parser.cc:230-252 | an encoded ENTITIES section of readable entities appends exactly those entities, in order |
| DxfDocument.DrawingSections | src/parser/dxf_text_parser.cc:62-116 | the sections of an encoded drawing (header, blocks, entities, EOF) read back as that version, those blocks and those entities |
| DxfDocument.DrawingRoundTrip | src/parser/dxf_text_parser.cc:62-122 | parsing an encoded drawing returns exactly its version, blocks and entities with the lookup tables built over them |
| DxfEncoding.ReadPairLines | src/parser/dxf_text_parser.cc:124-156 | a pair written as its code line and value line is read back unchanged, two lines further on |
| DxfEncoding.DecodeCanonical | src/parser/dxf_text_parser.cc:144-155 | decoding the decimal code and an already trimmed value gives the pair back |
| DxfEncoding.AddPairsSpec | src/parser/dxf_text_parser.cc:278-286 | storing pairs keeps them all in order; handle and layer are the last code-5 and code-8 values |
| DxfEncoding.ParseEntityStep | src/parser/dxf_text_parser.cc:270-286 | a non-zero pair is stored in the entity and reading continues |
| DxfEncoding.ParseEntityPair | src/parser/dxf_text_parser.cc:270-286 | reading one non-zero pair stores it and moves on, for any stream |
| DxfEncoding.ParseEntityStops | src/parser/dxf_text_parser.cc:260-276 | at a code-0 pair the entity is finished and the pair is pushed back; at end of input the stream is left failed |
| DxfEncoding.ParseEntityOver | src/parser/dxf_text_parser.cc:260-287 | reading a run of non-zero pairs stores them all and ends where reading what follows ends |
| DxfEncoding.ParseEntityLines | src/parser/dxf_text_parser.cc:254-290 | reading encoded non-zero pairs stores all of them, in order, and stops in front of the next code-0 pair or at end of input |
| DxfEncoding.ParseReadableEntity | src/parser/dxf_text_parser.cc:254-290 | an encoded entity reads back as exactly that entity |
| DxfEncoding.ParseEntitiesEntity | src/parser/dxf_text_parser.cc:242-248 | a code-0 value other than ENDSEC starts an entity that is appended |
| DxfEncoding.ParseEntitiesEndsec | src/parser/dxf_text_parser.cc:237-240 | `0/ENDSEC` ends the entity section with the list unchanged |
| DxfEncoding.ParseEntitiesStep | src/parser/dxf_text_parser.cc:230-252 | the first encoded entity is appended and reading goes on after it |
| DxfEncoding.ParseEntitiesLines | src/parser/dxf_text_parser.cc:230-252 | encoded readable entities followed by `0/ENDSEC` are appended, all and in order |
| DxfEncoding.ParseBlockFieldStep | src/parser/dxf_text_parser.cc:205-208 | inside a block, code 2 sets the name and code 5 the handle |
| DxfEncoding.ParseBlockBodyEntity | src/parser/dxf_text_parser.cc:209-219 | a code-0 value other than ENDBLK starts a nested entity appended to the block |
| DxfEncoding.ParseBlockBodyEnd | src/parser/dxf_text_parser.cc:209-212 | `0/ENDBLK` closes the block |
| DxfEncoding.ParseBlockEntitiesLines | src/parser/dxf_text_parser.cc:199-221 | the nested entities of a block are appended, all and in order, up to `0/ENDBLK` |
| DxfEncoding.ParseBlockLines | src/parser/dxf_text_parser.cc:195-224 | an encoded block body reads back as exactly that block |
| DxfEncoding.ParseBlocksBlock | src/parser/dxf_text_parser.cc:194-224 | each `0/BLOCK` appends exactly one block |
| DxfEncoding.ParseBlocksEndsec | src/parser/dxf_text_parser.cc:189-192 | `0/ENDSEC` ends the block section with the list unchanged |
| DxfEncoding.ParseBlocksStep | src/parser/dxf_text_parser.cc:182-228 | the first encoded block is appended and reading goes on after it |
| DxfEncoding.ParseBlocksLines | src/parser/dxf_text_parser.cc:182-228 | encoded readable blocks followed by `0/ENDSEC` are appended, all and in order |
| Graph.InternString | src/graph/graph_builder.cc:98-101 | the pool never overwrites an entry: a new string is added under itself, a known one returns the view stored first |
| Graph.InternKeepsContent | src/graph/graph_builder.cc:98-101 | with a content-keyed pool the returned view has the content asked for and earlier entries stay |
| Graph.InternTwice | src/graph/graph_builder.cc:98-101 | interning the same string again changes nothing |
| Graph.GcKeyInjective | src/graph/graph_builder.cc:121 | two 32-bit codes give the same `gc_` key exactly when they are equal |
| Graph.StoreCodesNumberKey | src/graph/graph_builder.cc:120-135 | a numeric key is present exactly when some pair with a code in 10–59 and a number value is stored under it |
| Graph.StoreCodesStringKey | src/graph/graph_builder.cc:120-135 | a string key is present exactly when some pair that is not numeric is stored under it |
| Graph.StoreCodesLast | src/graph/graph_builder.cc:120-135 | within each map, the last pair stored under a key wins: the numeric map keeps the last readable 10–59 value, the string map the last other value |
| Graph.EntityNode | src/graph/graph_builder.cc:103-112 | an Entity node's id is the handle, even when empty, and its type is "Entity" with no int props |
| Graph.EntityNodeFixed | src/graph/graph_builder.cc:113-116 | `handle`, `type` and `layer` hold the entity's handle, type and layer |
| Graph.EntityNodeKeys | src/graph/graph_builder.cc:113-135 | the string keys are exactly the three fixed ones plus the stored string codes; the numeric keys exactly the stored numbers |
| Graph.EntityNodeLast | src/graph/graph_builder.cc:118-135 | within each map, a repeated group code keeps only the value of the last pair that went to that map |
| Graph.EntityNodeBothMaps | src/graph/graph_builder.cc:120-133 | a `gc_` name is in both maps exactly when one of its pairs went to the string map and another to the numeric map; neither map ever drops an entry |
| Graph.EntityNodeSplitCode | src/graph/graph_builder.cc:124-130 | code 10 with "abc" then "1.0" leaves `gc_10` = "abc" among the strings and `gc_10` = 1.0 among the numbers |
| Graph.BlockNode | src/graph/graph_builder.cc:144-163 | a Block node has id `block_`+name, props name, handle and `content_hash = HASH_PLACEHOLDER`, and `entity_count` = number of member entities |
| Graph.AppendNodes | src/graph/graph_builder.cc:103-142 | appending creates the collection when missing, adds the nodes at its end, sets its count to its length and leaves other collections alone |
| Graph.AddEntitiesAppends | src/graph/graph_builder.cc:31-34 | adding entities one by one equals appending their nodes in input order |
| Graph.AddBlocksAppends | src/graph/graph_builder.cc:36-39 | adding blocks one by one equals appending their nodes in input order |
| Graph.ReferenceEdge | src/graph/graph_builder.cc:50-58 | a REFERENCES edge goes from the handle to `block_`+name, with id `edge_<handle>_ref_<name>` and property `block_name` |
| Graph.ReferenceEdges | src/graph/graph_builder.cc:43-61 | every edge comes from an INSERT whose first code-2 value is non-empty |
| Graph.ReferenceEdgesCount | src/graph/graph_builder.cc:43-61 | there is one edge per referring INSERT, and none exactly when no entity refers to a block |
| Graph.Metadata | src/graph/graph_builder.cc:26-29 | metadata holds exactly `dxf_version`, and `entity_count` and `block_count` as decimal strings that read back as the counts |
| Graph.CreateSchema | src/graph/graph_builder.cc:88-96 | the schema is the DXF schema of the drawing's version |
| Graph.BuildFromLines | src/graph/graph_builder.cc:79-86 | a parse error is returned as is; otherwise the graph of the parsed drawing |
| Graph.BuildCollections | src/graph/graph_builder.cc:31-170 | every collection's count equals its length; only Entity and Block exist, each when it has nodes |
| Graph.BuildNodes | src/graph/graph_builder.cc:31-39 | there is one Entity node per top-level entity and one Block node per block, in order |
| Graph.BuildNodesIn | src/graph/graph_builder.cc:31-39 | no other collection exists, so block member entities never become nodes |
| Graph.BuildSummary | src/graph/graph_builder.cc:19-77 | schema, metadata and edges are as built; edge_count and `edges_per_type["REFERENCES"]` equal the number of referring INSERTs |
| Graph.BuildNodeStats | src/graph/graph_builder.cc:63-72 | node_count is the number of entities plus blocks, and `nodes_per_type` matches every collection |
| Graph.EdgesIgnoreBlocks | src/graph/graph_builder.cc:43-61 | edges do not depend on the blocks, so an edge to a missing block is still created |
| GraphSchema.CreateDXFSchema | src/schema/schema_analyzer.cc:14-101 | it always succeeds with format "DXF", the given version, schema version "1.0.0", and node types Entity, Block and Layer |
| GraphSchema.FirstNodeType | src/schema/schema_analyzer.cc:107-116 | the first node type with that name is found, or none when no type has it |
| GraphSchema.Flagged | src/schema/schema_analyzer.cc:109-113 | the names of exactly the flagged properties, and no more names than properties |
| GraphSchema.FlaggedAppend | src/schema/schema_analyzer.cc:109-113 | flagged names keep declaration order across concatenation |
| GraphSchema.FindProperties | src/schema/schema_analyzer.cc:103-173 | an unknown type gives no names; otherwise the flagged names of the first type so named, in order |
| GraphSchema.DxfEntityFlags | src/schema/schema_analyzer.cc:22-55 | Entity: unique = [handle], indexed = [handle, type, layer], comparable = aggregable = [x, y] |
| GraphSchema.DxfBlockFlags | src/schema/schema_analyzer.cc:57-70 | Block: unique = [name], comparable = [content_hash], no aggregable property |
| GraphSchema.DxfLayerFlags | src/schema/schema_analyzer.cc:72-80 | Layer: unique = indexed = [name] |
| GraphSchema.DxfUnknownType | src/schema/schema_analyzer.cc:103-118 | any other type name gives an empty list |
| GraphSchema.EdgeTypeNames | src/schema/schema_analyzer.cc:175-184 | every edge-type name, in order, without filtering |
| GraphSchema.DxfEdgeTypeNames | src/schema/schema_analyzer.cc:82-98 | the DXF edge types are BELONGS_TO, CONTAINS and REFERENCES |
| GraphSchema.FirstBadEdge | src/schema/schema_analyzer.cc:201-212 | an error exactly when some edge has an undeclared source or target type |
| GraphSchema.ValidateSchema | src/schema/schema_analyzer.cc:186-215 | OK exactly when there are node types, a source format and only declared edge endpoints; the first two checks come first with their messages |
| GraphSchema.ValidateReportsFirstEdge | src/schema/schema_analyzer.cc:201-212 | only the first bad edge is reported |
| GraphSchema.DxfSchemaValid | src/schema/schema_analyzer.cc:82-98 | the DXF schema validates |
| Operations.Handle | src/operations/operation_executor.cc:49-95 | every handler returns Unimplemented and leaves the executor's graph alone |
| Operations.Execute | src/operations/operation_executor.cc:13-35 | a known kind fails with Unimplemented; any other type value fails with InvalidArgument "Unknown operation type"; the graph is unchanged |
| Operations.ExecuteRoutesByKind | src/operations/operation_executor.cc:15-31 | two known operations give the same outcome exactly when they have the same kind, so each kind has its own handler |
| Operations.ExecutePlan | src/operations/operation_executor.cc:37-45 | every plan gives Unimplemented and the graph is unchanged |
| Operations.ExecuteMany | src/operations/operation_executor.cc:10-11 | any number of executions leave the executor, and so its graph, as it was |
| Merge.FileName | tools/generate_full_bom.cc:107 | the tag is everything after the path's last '/' (the whole path when it has none) |
| Merge.Tagged | tools/generate_full_bom.cc:117-119 | a merged node is the original with `source_drawing` set to the file name and nothing else changed |
| Merge.MergeNodesSpec | tools/generate_full_bom.cc:113-122 | each collection becomes the old nodes followed by the new graph's nodes of that type, tagged; counts stay equal to lengths |
| Merge.LaterNodesTagged | tools/generate_full_bom.cc:113-120 | every node merged from a later file carries the name of a file that built |
| Merge.MergeRestNodes | tools/generate_full_bom.cc:96-122 | later files add their tagged nodes, in file order, after the base nodes |
| Merge.MergeRestEdges | tools/generate_full_bom.cc:124-128 | later edges are appended verbatim, without de-duplication or tagging |
| Merge.MergeRestKeeps | tools/generate_full_bom.cc:96-129 | merging keeps counts equal to lengths and leaves schema, metadata and stats alone |
| Merge.FailedFileSkipped | tools/generate_full_bom.cc:100-104 | a later file that fails to build is skipped and merging continues |
| Merge.Restat | tools/generate_full_bom.cc:131-140 | node_count is the sum of collection sizes, edge_count the number of edges, `nodes_per_type` is recomputed and `edges_per_type` is left as it was |
| Merge.Ordered | tools/generate_full_bom.cc:68 | the files are processed as a list holding exactly the given paths |
| Merge.FirstIsLeast | tools/generate_full_bom.cc:68-83 | the base drawing is the lexicographically least path |
| Merge.MergeDrawings | tools/generate_full_bom.cc:63-66 | no files is its own outcome, which the tool reports as an error |
| Merge.MergeDrawingsSpec | tools/generate_full_bom.cc:83-140 | a failing first file aborts; otherwise nodes are the base nodes then tagged later nodes, edges are the base edges then later edges, and the stats are recomputed except `edges_per_type` |
| Merge.StaleEdgeCounts | tools/generate_full_bom.cc:132-140 | once a later file adds edges, `edges_per_type["REFERENCES"]` stays below edge_count |
| Merge.BaseNodesUntagged | tools/generate_full_bom.cc:89-120 | a base-graph node without `source_drawing` is still untagged after the merge |
| Merge.BuiltNodesUntagged | src/graph/graph_builder.cc:103-170 | a freshly built graph has no node carrying `source_drawing` |
| Merge.CountEdges | tools/generate_full_bom.cc:132-140 | the number of edges of a type is at most the total, the total when all have that type, and 0 exactly when none has it |
| Merge.RestatFixed | tools/generate_full_bom.cc:131-140 | corrected stats: `edges_per_type` has exactly the edge types present, each with its count |
| Merge.TagGraph | tools/generate_full_bom.cc:113-121 | tagging a whole graph tags every node of every collection and keeps edges and stats |
| Merge.MergeDrawingsFixed | tools/generate_full_bom.cc:63-140 | the corrected merge fails only without files |
| Merge.FixedAllTagged | tools/generate_full_bom.cc:113-120 | with the correction every merged node, the first drawing's included, carries the name of a file that built |
| Merge.FixedEdgeCounts | tools/generate_full_bom.cc:132-140 | with the correction, REFERENCES-only edges give `edges_per_type["REFERENCES"]` = edge_count |
| Bom.SanitizeChar | src/export/bom_exporter.cc:18-25 | a byte is kept exactly when it is printable (32–126); tab and newline become one space; any other byte is dropped |
| Bom.Sanitize | src/export/bom_exporter.cc:16-28 | the output is never longer than the input and holds only printable bytes |
| Bom.SanitizeAppend | src/export/bom_exporter.cc:16-28 | sanitising works byte by byte across concatenation |
| Bom.SanitizeFixed | src/export/bom_exporter.cc:16-28 | a string is left unchanged exactly when all its bytes are printable |
| Bom.SanitizeIdempotent | src/export/bom_exporter.cc:16-28 | applying it twice gives the same result as once |
| Bom.Prop | src/export/bom_exporter.cc:46-47 | a string prop lookup finds exactly the stored value |
| Bom.DrawingsMembers | src/export/bom_exporter.cc:43-63 | a drawing is collected exactly when some INSERT of the part carries it |
| Bom.Dedupe | src/export/bom_exporter.cc:56-59 | duplicates are dropped and membership is kept |
| Bom.DedupeFirstSeen | src/export/bom_exporter.cc:56-59 | the kept drawings are in first-seen order |
| Bom.SourceDrawings | src/export/bom_exporter.cc:43-63 | `source_drawings` holds the distinct `source_drawing` values of the part's INSERT nodes |
| Bom.FirstNamedBlock | src/export/bom_exporter.cc:66-76 | the first Block node named after the part is chosen, or none |
| Bom.Formatted | src/export/bom_exporter.cc:71-73 | the chosen block's numeric props are all copied, formatted |
| Bom.Counts | src/export/bom_exporter.cc:36-39 | the quantities fail exactly when some value does not read as an integer |
| Bom.CountsAt | src/export/bom_exporter.cc:39 | each quantity is `stoi` of its value |
| Bom.SortByQuantity | src/export/bom_exporter.cc:82-86 | the result is a permutation sorted by non-increasing quantity |
| Bom.Rank | src/export/bom_exporter.cc:36-87 | a ranked list has one entry per value, sorted by non-increasing quantity |
| Bom.RankFails | src/export/bom_exporter.cc:39 | ranking fails exactly when some value is not an integer string |
| Bom.RankHas | src/export/bom_exporter.cc:36-80 | every key has its entry in the ranked list |
| Bom.RankOnly | src/export/bom_exporter.cc:36-80 | every ranked entry is the entry of some key with its quantity |
| Bom.ParseBom | src/export/bom_exporter.cc:30-89 | a parsed BOM has one entry per key and is sorted by non-increasing quantity |
| Bom.ParseBomFails | src/export/bom_exporter.cc:39 | parsing fails exactly when some value is not an integer string, where `stoi` throws |
| Bom.ParseBomHasEntry | src/export/bom_exporter.cc:36-80 | every part has its entry with `stoi` of its value, its drawings and its block properties |
| Bom.ParseBomOnlyEntries | src/export/bom_exporter.cc:36-80 | every entry belongs to a part and carries that part's quantity |
| Bom.DimensionTypeName | src/export/bom_exporter.cc:113-119 | codes 0–4 are named and every other code is OTHER |
| Bom.DimensionTypesDistinct | src/export/bom_exporter.cc:113-118 | the five dimension names are distinct |
| Bom.DimensionRecord | src/export/bom_exporter.cc:107-146 | the record's handle is the node id; `gc_70` gives the type or stays empty when absent; measurement, text, layer and source are copied when present; an unreadable `gc_70` fails as `stoi` throws |
| Bom.ExtractDimensions | src/export/bom_exporter.cc:96-98 | with no Entity collection there are no dimensions |
| Bom.DimensionsAppend | src/export/bom_exporter.cc:100-149 | dimensions are collected node by node, in node order |
| Bom.DimensionsFail | src/export/bom_exporter.cc:111-113 | extraction fails exactly when some DIMENSION node has an unreadable `gc_70` |
| Bom.DimensionsCount | src/export/bom_exporter.cc:100-149 | there is one record per DIMENSION node |
| Bom.UntaggedDimensions | src/export/bom_exporter.cc:142-146 | without `source_drawing` props every record's source is empty |
| Bom.UntaggedDrawings | src/export/bom_exporter.cc:52-60 | without `source_drawing` props a part has no source drawings |
| Query.Prompt | src/query/query_service.cc:17-101 | the prompt is the schema part, then the query verbatim, then the closing text |
| Query.PromptDeterminesQuery | src/query/query_service.cc:83-85 | the query can be read back from the prompt |
| Query.NodeLineInPrompt | src/query/query_service.cc:29-40 | each node type's line appears in schema order; its properties carry (unique), (indexed), (comparable), (aggregable) in that order, each followed by ", " |
| Query.EdgeLineInPrompt | src/query/query_service.cc:42-46 | each edge type appears as `- name: source → target` in schema order after the node lines |
| Query.TrimReplyShape | src/query/query_service.cc:125-130 | an all-whitespace reply is kept; otherwise " \n\r\t" is trimmed from both ends and nothing else |
| Query.TrimReplyIdempotent | src/query/query_service.cc:125-130 | trimming twice is trimming once |
| Query.NoFenceOnlyTrims | src/query/query_service.cc:109-130 | a reply with no fence is only trimmed |
| Query.JsonFenceRoundTrip | src/query/query_service.cc:109-130 | the text between the first "```json" and the next "```" is what remains, trimmed |
| Query.FenceRoundTrip | src/query/query_service.cc:109-130 | with no "```json", the text between the first two "```" is what remains, trimmed |
| Query.FindIsFirst | src/query/query_service.cc:110-120 | `find` returns the first occurrence |
| Query.Lookup | src/query/query_service.cc:136-159 | a member lookup finds a value exactly when the key is present |
| Query.Field | src/query/query_service.cc:140 | reading a member of something that is neither an object nor null is a JSON error |
| Query.ConstField | src/query/query_service.cc:143 | a const member read succeeds exactly on an object with that key |
| Query.AsString | src/query/query_service.cc:136-164 | `get<string>` succeeds exactly on a string and returns it |
| Query.Items | src/query/query_service.cc:163 | object items are its members; array items are keyed by decimal index; null has none; a primitive is one item under "" |
| Query.Collect | src/query/query_service.cc:162-166 | copying parameters fails exactly when some value is not a string, and otherwise adds exactly their keys |
| Query.CollectLastWins | src/query/query_service.cc:163-165 | a repeated parameter key keeps the last value |
| Query.CollectKeeps | src/query/query_service.cc:163-165 | keys not among the items keep their values |
| Query.MapTypeInvertsKindName | src/query/query_service.cc:143-152 | a type string maps to a kind exactly when it is the name of FILTER, TRAVERSE, AGGREGATE or MATCH; anything else leaves the type unset |
| Query.ReadOperation | src/query/query_service.cc:140-166 | a read operation has a string type, its kind mapped from it, and a target type only when one is present |
| Query.OptionalString | src/query/query_service.cc:154-160 | an absent member gives "", a present one must be a string |
| Query.ReadOperations | src/query/query_service.cc:140-167 | the operations are read one per element, in order, and fail when any fails |
| Query.ReadPlanSpec | src/query/query_service.cc:133-169 | a plan reads exactly when query and reasoning are strings and every operation reads; then it copies them |
| Query.NoOperationsMember | src/query/query_service.cc:140 | a missing operations member gives an empty plan |
| Query.ParseOperationPlan | src/query/query_service.cc:103-176 | a plan is returned exactly when the fence-stripped reply decodes and reads; failures are InvalidArgument |
| Query.ParseFailureQuotesReply | src/query/query_service.cc:171-175 | the failure message starts with "Failed to parse operation plan: " and ends with the raw reply |
| Query.ParsedKindsReadable | src/query/query_service.cc:143-152 | a parsed operation's type is unset or one of the four readable kinds |
| Query.FencedReplyParsesAsBody | src/query/query_service.cc:107-133 | a fenced reply parses exactly like its body |
| Query.Rule | src/query/query_service.cc:182-190 | a rule line is its glyph repeated |
| Query.RuleGlyph | src/query/query_service.cc:182-190 | every three bytes of a rule are the glyph |
| Query.PadName | src/query/query_service.cc:193-199 | every row name is exactly 40 characters |
| Query.RowLayout | src/query/query_service.cc:189-201 | a row is the padded name, "\| ", the count and a newline, with the bar in column 40 as in the header |
| Query.PadNameTrims | src/query/query_service.cc:197-199 | a short name is only right-padded with spaces |
| Query.PadNameTruncates | src/query/query_service.cc:195-196 | a name longer than 40 becomes its first 37 characters and "..." |
| Query.FormatBOM | src/query/query_service.cc:178-206 | the output starts with the title and the heavy rule |
| Query.FormatBOMRow | src/query/query_service.cc:192-202 | every value has its row, in key order, after the header |
| Query.FormatBOMEmpty | src/query/query_service.cc:184-187 | empty values print "No results" and no table header |
| Query.RunOps | src/query/query_service.cc:244-252 | no operations give the initial result; a failing first operation stops the loop with its error |
| Query.RunOpsLast | src/query/query_service.cc:244-252 | on success the result is the last operation's result |
| Query.AnswerPrompt | src/query/query_service.cc:219-259 | a failed model call is reported with its message; a success has no error message, a plan and a result |
| Query.AnswerOutcome | src/query/query_service.cc:228-259 | success exactly when the reply parses to a plan without operations (every handler fails); a parse failure reports its message with no plan; otherwise the first operation's error is reported with the plan |
| Statements.TrimDots | experiments/logical_consistency/logical_consistency_scorer.py:81 | only trailing dots are removed: the result is a prefix, not ending in '.', followed only by dots |
| Statements.SplitPattern | experiments/logical_consistency/logical_consistency_scorer.py:75-84 | a split yields at most one statement, with stripped subject and dot-free object |
| Statements.SplitPatternRoundTrip | experiments/logical_consistency/logical_consistency_scorer.py:76-84 | a statement comes from a line that is subject, separator, object with the separator occurring exactly once |
| Statements.Conjoined | experiments/logical_consistency/logical_consistency_scorer.py:119-136 | "X and Y have Z" yields either nothing or two clean statements |
| Statements.ConjoinedFound | experiments/logical_consistency/logical_consistency_scorer.py:119-121 | two statements need " and " followed by " have " |
| Statements.ConjoinedSpec | experiments/logical_consistency/logical_consistency_scorer.py:120-136 | the line splits at the first " and " and the next " have "; the two `has` statements have subjects X and Y, object Z, and ids idx and idx + 0.5 |
| Statements.ParseLinePrecedence | experiments/logical_consistency/logical_consistency_scorer.py:75-119 | " is not " beats " is ", which beats " has ", then " lacks ", then " and … have " |
| Statements.SilentLine | experiments/logical_consistency/logical_consistency_scorer.py:70-72 | a blank or `#` line yields nothing |
| Statements.SkipsBlankAndComments | experiments/logical_consistency/logical_consistency_scorer.py:69-72 | dropping a blank or comment line leaves the other lines' statements and their line numbers |
| Statements.EachLineAppend | experiments/logical_consistency/logical_consistency_scorer.py:69 | statements are collected line by line with line numbers counted from the start |
| Statements.StatementsClean | experiments/logical_consistency/logical_consistency_scorer.py:78-135 | every statement has a stripped subject and a stripped object with no trailing dot |
| Consistency.AddKeys | experiments/logical_consistency/logical_consistency_scorer.py:147-161 | a statement adds its subject, and its object for is/is_not, as entities |
| Consistency.AddTargets | experiments/logical_consistency/logical_consistency_scorer.py:164-171 | is/is_not add the object to the subject's target set |
| Consistency.AddProperties | experiments/logical_consistency/logical_consistency_scorer.py:172-175 | `has` adds the object and `lacks` adds `not_`+object to the properties |
| Consistency.BuildKeys | experiments/logical_consistency/logical_consistency_scorer.py:140-177 | the entities are exactly every subject and every is/is_not object, each named after itself |
| Consistency.BuildTargets | experiments/logical_consistency/logical_consistency_scorer.py:140-177 | X is in A's is (is_not) set exactly when some statement says so |
| Consistency.BuildRelationKeys | experiments/logical_consistency/logical_consistency_scorer.py:163-171 | a relation key exists exactly when the entity uses that relation |
| Consistency.BuildProperties | experiments/logical_consistency/logical_consistency_scorer.py:172-175 | the properties are exactly the has objects and `not_`-prefixed lacks objects of that subject |
| Consistency.DetectMembers | experiments/logical_consistency/logical_consistency_scorer.py:256-287 | the three rules fire exactly on the graph patterns they test |
| Consistency.DetectsIsAndIsNot | experiments/logical_consistency/logical_consistency_scorer.py:256-264 | (A is X, A is not X) is reported exactly when both statements were made |
| Consistency.DetectsHasAndLacks | experiments/logical_consistency/logical_consistency_scorer.py:266-274 | a has/lacks contradiction is reported exactly when both P and `not_P` are held |
| Consistency.DetectsTransitive | experiments/logical_consistency/logical_consistency_scorer.py:276-287 | a transitivity violation is reported exactly for A is B, B is C and A is not C |
| Consistency.LacksAloneIsConsistent | experiments/logical_consistency/logical_consistency_scorer.py:266-274 | a lone lacks statement is no contradiction |
| Consistency.DirectContradictionReported | experiments/logical_consistency/test_consistency.py:38-54 | "A is X" with "A is not X" is reported with those two texts |
| Consistency.SilentLines | experiments/logical_consistency/logical_consistency_scorer.py:69-72 | text of blank and comment lines yields no statements |
| Consistency.SilentTextScoresFull | experiments/logical_consistency/logical_consistency_scorer.py:299-306 | text without statements scores 100 with no contradictions and residual 0 |
| Consistency.EmptyTextScoresFull | experiments/logical_consistency/test_consistency.py:142-150 | empty input gives the no-statements report |
| Triples.InternDense | experiments/logical_consistency/logical_consistency_scorer_v2.py:153-166 | numbering from a dense map keeps ids dense and gives new names ids above the old ones |
| Triples.InternOrder | experiments/logical_consistency/logical_consistency_scorer_v2.py:153-166 | new names are numbered in order of first appearance |
| Triples.FreshRegistersAlike | experiments/logical_consistency/logical_consistency_scorer_v2.py:149-166 | on a fresh instance the counters starting at 0 agree with numbering by dictionary size |
| Triples.FreshIdsFollowMentions | experiments/logical_consistency/logical_consistency_scorer_v2.py:149-161 | on a fresh instance entity ids follow the order of first mention |
| Triples.FirstCallRegisters | experiments/logical_consistency/logical_consistency_scorer_v2.py:149-161 | "A is B" on a fresh instance gives A = 0, B = 1 |
| Triples.EncodeAll | experiments/logical_consistency/logical_consistency_scorer_v2.py:174-193 | one triple per statement, in order, with `source_stmt` its index, relation ids 0–3 and truth ±1 |
| Triples.Row | experiments/logical_consistency/logical_consistency_scorer_v2.py:208-222 | the inner loop reports exactly the later opposed triples, in order |
| Triples.PairsFrom | experiments/logical_consistency/logical_consistency_scorer_v2.py:207-222 | all pairs i < j of opposed triples, in loop order |
| Triples.DetectPairs | experiments/logical_consistency/logical_consistency_scorer_v2.py:200-227 | a pair is reported exactly when i < j, same entity and target, opposite truth, and relation ids {0,1} or {2,3} |
| Triples.OpposedStatements | experiments/logical_consistency/logical_consistency_scorer_v2.py:212-222 | with dense ids, two triples are opposed exactly when their statements share subject and object and have opposite relations |
| Triples.PairsAreOppositeStatements | experiments/logical_consistency/logical_consistency_scorer_v2.py:142-227 | with the corrected numbering, reported pairs are exactly the opposite-statement pairs |
| Triples.ReusedInstanceFalsePair | experiments/logical_consistency/logical_consistency_scorer_v2.py:149-161 | reusing an instance, "C is X" and "A is not X" are reported although the subjects differ |
| Triples.CollidingIds | experiments/logical_consistency/logical_consistency_scorer_v2.py:150-157 | the restarted counter gives a new subject the id already held by an old one |
| Triples.ReusedInstanceFixed | experiments/logical_consistency/logical_consistency_scorer_v2.py:149-166 | with numbering from the dictionary size the same two statements are not reported |
| Triples.DescribeIsNot | experiments/logical_consistency/logical_consistency_scorer_v2.py:356-357 | an is_not statement is quoted as "A is not X" |
| Triples.StatementPairsQuote | experiments/logical_consistency/logical_consistency_scorer_v2.py:347-358 | each triple pair is mapped through `source_stmt` to the two statement texts |
| Triples.ReportedPairs | experiments/logical_consistency/logical_consistency_scorer_v2.py:341-358 | with the corrected numbering on a dense registry, each quoted pair is two statements i < j with the same subject and object and opposite relations |
| Triples.FreshReportedPairs | experiments/logical_consistency/logical_consistency_scorer_v2.py:341-358 | on a fresh instance the numbering as written quotes only pairs of statements i < j with the same subject and object and opposite relations |
| Triples.Score | experiments/logical_consistency/logical_consistency_scorer_v2.py:326-426 | text without statements scores 100 and leaves the registries alone; otherwise the reported contradictions are the quoted statement pairs of the detected triple pairs, every statement's names get registered and earlier names keep their ids |
| Triples.ScoreFixed | experiments/logical_consistency/logical_consistency_scorer_v2.py:326-426 | the same with the corrected numbering, which also keeps the ids dense |
| Triples.FreshScoresAlike | experiments/logical_consistency/logical_consistency_scorer_v2.py:149-166 | on a fresh instance the scorer as written and the corrected one give the same registries and report for every text |
| Triples.EmptyTextScoresFull | experiments/logical_consistency/logical_consistency_scorer_v2.py:331-338 | empty input scores 100 with residual 0 and registers nothing |
| FinetooSchema.ColumnRoundTrip | experiments/logical_consistency/thought_to_finetoo.py:125-146 | a property column's name gives back the property; `not_P` becomes `lacks_P`, others `has_P`, aggregable exactly when not negated |
| FinetooSchema.EntityFixedColumns | experiments/logical_consistency/thought_to_finetoo.py:101-117 | the Entity node starts with `name` (unique, comparable, indexed) and `type` (comparable, indexed) |
| FinetooSchema.EntityColumnMembers | experiments/logical_consistency/thought_to_finetoo.py:119-146 | a property has its column exactly when it is held by some entity |
| FinetooSchema.EntityColumnOrder | experiments/logical_consistency/thought_to_finetoo.py:125 | columns follow the sorted order of the properties |
| FinetooSchema.TypedExactly | experiments/logical_consistency/thought_to_finetoo.py:160-189 | a type has its node exactly when it is listed, named `capitalize()` with description "Specialized type: " |
| FinetooSchema.EveryIsObjectTyped | experiments/logical_consistency/thought_to_finetoo.py:148-189 | the first node is Entity and every `is` object, and nothing else, has a type node |
| FinetooSchema.EdgesForAscending | experiments/logical_consistency/thought_to_finetoo.py:203-232 | IS_A comes for "is" and IS_NOT for "is_not", in that order |
| FinetooSchema.EdgesOfStatements | experiments/logical_consistency/thought_to_finetoo.py:193-249 | IS_A exactly when some `is` statement exists, IS_NOT exactly when some `is_not` does, HAS_PROPERTY always last |
| FinetooSchema.KindOfStatements | experiments/logical_consistency/thought_to_finetoo.py:197-200 | a relation kind is present exactly when some statement uses it |
| FinetooSchema.PropertyOps | experiments/logical_consistency/thought_to_finetoo.py:259-280 | a node's MATCH (FILTER) operation for a property is present exactly when that property is unique (comparable) |
| FinetooSchema.PropertyOpsSnoc | experiments/logical_consistency/thought_to_finetoo.py:261-280 | appending a property appends its MATCH (FILTER) exactly when it is unique (comparable): one operation per selected property, in property order |
| FinetooSchema.GroupOpsSnoc | experiments/logical_consistency/thought_to_finetoo.py:260-280 | appending a node appends that node's operations: the group runs over the nodes in order |
| FinetooSchema.TraverseOps | experiments/logical_consistency/thought_to_finetoo.py:282-290 | one TRAVERSE per edge type, in order |
| FinetooSchema.AggregableNames | experiments/logical_consistency/thought_to_finetoo.py:294 | a name is listed exactly when some aggregable property has it |
| FinetooSchema.AggregableNamesSnoc | experiments/logical_consistency/thought_to_finetoo.py:294 | appending a property appends its name exactly when it is aggregable: the aggregable names, one per property, in property order |
| FinetooSchema.AggregateOps | experiments/logical_consistency/thought_to_finetoo.py:292-302 | a node's AGGREGATE is present exactly when the node has an aggregable property |
| FinetooSchema.AggregateOpsSnoc | experiments/logical_consistency/thought_to_finetoo.py:293-302 | appending a node appends its AGGREGATE exactly when it has an aggregable property: one per such node, in node order |
| FinetooSchema.OperationGroups | experiments/logical_consistency/thought_to_finetoo.py:251-304 | MATCH, then FILTER, then TRAVERSE (one per edge, in order), then AGGREGATE |
| FinetooSchema.PropertyOperations | experiments/logical_consistency/thought_to_finetoo.py:259-280 | a MATCH/FILTER op is emitted exactly for a unique/comparable property of some node |
| FinetooSchema.AggregateOperations | experiments/logical_consistency/thought_to_finetoo.py:292-302 | a node's AGGREGATE op is emitted exactly when it has an aggregable property, and lists exactly those |
| FinetooExport.ExportSchema | experiments/logical_consistency/thought_to_finetoo.py:306-322 | only 'json' and 'protobuf' are accepted; any other format raises "Unsupported format: " |
| FinetooExport.ProtoType | experiments/logical_consistency/thought_to_finetoo.py:364-370 | boolean → bool, int → int32, float → float, anything else → string |
| FinetooExport.FlagIndices | experiments/logical_consistency/thought_to_finetoo.py:373-381 | the flags are the set ones, in the fixed order |
| FinetooExport.FlagsExactly | experiments/logical_consistency/thought_to_finetoo.py:373-381 | each comment word is present exactly when its flag is set |
| FinetooExport.NodeFields | experiments/logical_consistency/thought_to_finetoo.py:363-386 | node fields are numbered from 1, one per property, commented with its flags |
| FinetooExport.EdgeFields | experiments/logical_consistency/thought_to_finetoo.py:392-406 | edge fields are `source_<type>` = 1, `target_<type>` = 2, then the properties numbered from 3, with no comments |
| FinetooExport.ExportedLines | experiments/logical_consistency/thought_to_finetoo.py:349-411 | splitting the export at newlines gives back exactly the lines written |

## Left out

- `src/cloud/vertex_ai_client.cc`: network calls and token caching; the model's reply is the `llm` parameter of `Query.AnswerPrompt`.
- `src/analysis/block_analyzer.cc`: every function is a stub returning a constant.
- Timing in `ProcessQuery` and the BOM file writers (`ExportToJSON`, `ExportToCSV`, `ExportDimensions`): clocks and file I/O.
- Float parsing and formatting: `std::stod` is the `num` parameter of the graph builder; `std::to_string(double)` is the `fmt` parameter of the BOM reader; `gc_42` is copied as the number it parsed to.
- `absl::SimpleAtod` and `DXFEntity::GetDouble`: float parsing, as above.
- JSON parsing: `nlohmann::json::parse` is the `decode` parameter; `e.what()` is the `describe` parameter.
- The const `operator[]` on a missing key, undefined behaviour in the JSON library, is the `MissingKey` fault.
- `tellg`/`seekg` and stream flags: the stream is a line sequence with a good flag; input lines are taken as already split at newlines.
- Protobuf arenas and `string_view` lifetimes: the intern pool is a content-keyed map.
- The rest of `tools/generate_full_bom.cc`, `tools/parse_dxf.cc` and the demos: console output, environment and directory scanning.
- The first scorer's vector encoding and the learner-based score, residual and analysis text (numpy and the external `UnifiedSheafLearner`): they are the `analyse` parameter of the scoring functions. In the second scorer `analyse` supplies only the score, the analysis text and the residual; the reported contradictions are the quoted pairs on both its paths.
- `consistency_cli.py` and `demo.py`: command-line and interactive code.
- `_export_json`: JSON serialisation is the `json` parameter of `FinetooExport.ExportSchema`.
- The two numeric header lines of the protobuf export: their `.1f`/`.4e` float formatting is the `score` and `obstruction` parameters.
- `convert_to_schema` and the metadata of the generated schema: they depend on the learner's scores.
- The concrete five-line parsing example of `test_consistency.py` (lines 164-187): the general contracts of `Statements.ConjoinedSpec` and `Statements.ParseLinePrecedence` cover it. Running the parser on those literal lines is not stated.
- FinetooSchema.TypeNodes: a type node's own properties come from a Python set, whose order is unspecified; the model lists them in sorted order.
- FinetooSchema.PropertyOps, FinetooSchema.AggregableNames and FinetooSchema.AggregateOps: their own contracts state membership only; order and multiplicity are stated by `PropertyOpsSnoc`, `AggregableNamesSnoc` and `AggregateOpsSnoc`.
- FinetooSchema.Capitalize: Python's `str.capitalize` and `str.lower` are modelled on ASCII letters only.
- Bom.ParseBom: the protobuf map iteration order and the unstable `std::sort` leave the order of ties open; the model visits parts in sorted key order and states only the non-increasing order and the entry set.
- Query.FormatBOM: rows are printed in sorted key order, standing for the protobuf map's iteration order.
- Statements.ParseStatements: Python's `str.strip` is modelled with the code points Python treats as whitespace. `str.split('\n')` splits only at "\n".
- Triples.Score: the quoted pairs are stated as opposite statements only on a fresh instance (`FreshReportedPairs`). A reused instance can quote false pairs, as recorded under Findings; `ScoreFixed` states it for every dense registry.
- DxfParser.ParseHeader, DxfParser.ParseEntities, DxfParser.ParseBlocks and DxfParser.SkipSection: their own contracts say only that reading never grows the input. Their behaviour is stated by the `DxfDocument` and `DxfEncoding` lemmas.
- DxfParser.Parse: the line counter of the error messages drifts by two on every lookahead in `ParseEntity`, because the position is rewound but the counter is not; this is modelled, and the messages are not stated in any contract.

## Findings

| source | as written | input that shows it | evidently intended | confidence | as-written member | corrected member |
|---|---|---|---|---|---|---|
| tools/generate_full_bom.cc:132-140 | the combined stats recompute `node_count`, `edge_count` and `nodes_per_type` but leave `edges_per_type` from the first drawing | two drawings that both build, the second with one INSERT referring to a block | `edges_per_type["REFERENCES"]` equals the total number of merged REFERENCES edges | not executed | Merge.StaleEdgeCounts | Merge.FixedEdgeCounts |
| tools/generate_full_bom.cc:89-120 | only nodes of later drawings get `source_drawing`; the first drawing's nodes are copied untagged | two drawings; any node of the lexicographically first one | every merged node records the drawing it came from | not executed | Merge.BaseNodesUntagged | Merge.FixedAllTagged |
| experiments/logical_consistency/logical_consistency_scorer_v2.py:149-166 | the id counters restart at 0 on every call while the name-to-id dictionaries persist, so a reused instance gives a new name an id an old name already holds | one instance; first "A is B", then "C is X" followed by "A is not X": C gets id 0 like A, and the pair is reported | ids stay distinct across calls, so only statements about the same subject and object are reported | not executed | Triples.ReusedInstanceFalsePair | Triples.ReusedInstanceFixed |
