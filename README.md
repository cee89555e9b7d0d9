# A verified model of the aurelion-memory-lite query engine

This project models the core of a personal knowledge-base index. Documents
are sorted onto five fixed "floors". A concept graph links documents to
concept nodes, and nodes link to each other. The core is the `LibrarySystem`
query engine. It answers four kinds of query: by concept, by floor, by tag,
and a related-concept walk with a hop budget. It also keeps a session log of
the queries. Two smaller pure pieces are modelled as well: the floor-name
table of `Architecture`, and the string logic inside the memory server's
tools.

Layout, one module per component:

- `wrappers.dfy` (`Wrappers`): `Option`, for Python's `None` and `dict.get`.
- `text.dfy` (`Text`): the Python string built-ins the code uses. These are
  `lower` (ASCII), `in`, `startswith`, `lstrip`, `strip`, `[:n]`,
  `splitlines`, `split`, `count` and `str(int)`.
- `graph.dfy` (`KnowledgeGraph`): nodes, the graph, and the result records.
  The graph keeps the dictionary's key order (`ids`) beside its content
  (`nodes`). A subset type makes the keys distinct and makes `ids` list
  exactly the keys.
- `concept_search.dfy` (`ConceptSearch`): node matching and flattening to
  file records.
- `related_walk.dfy` (`RelatedWalk`): resolving neighbours and the greedy
  walk, with its trail of processed nodes.
- `catalogs.dfy` (`Catalogs`): the hard-coded floor table and tag table.
- `journal.dfy` (`Journal`): log entries and the session summary.
- `library_system.dfy` (`Library`): the class `LibrarySystem`. The graph
  is a `const`. `queryHistory` is the one mutable field. Every method that
  loops in the source loops here too, and each is proved against a
  specification function from the modules above.
- `architecture.dfy` (`Architecture`), `server.dfy` (`Server`): the floor
  tables and the server's pure fragments.
- `floor_tables.dfy` (`FloorTables`): the three floor tables agree.
- `scenarios.dfy` (`Scenarios`): a two-node graph worked through concept
  search and the walk.

Where the code and its general description differ, the model follows the
code:

- `search_by_concept` logs nothing when no node matches. `search_by_floor`
  logs nothing for a floor outside 1 to 5. So "after N calls the history has
  N entries" does not hold in general. What holds is that each call adds at
  most one entry, and exactly one in the cases each method's contract
  names.
- The walk moves on to the *lower-cased label* of the first connection, not
  to its id. It then looks nodes up by exact key membership, not
  case-insensitively. On the two-node graph `a -> b -> a` with labels
  "Career" and "Skills", two hops from `a` report `b` once. The walk then
  stops, because `"skills"` is not a key (`Scenarios.WalkFromA`).
- In `write_document` the test "already under the floor directory" compares
  text, not path components. So `Floor_01_FoundationNotes.md` is kept as it
  is (`Server.PrefixTestIsTextual`).

## Model

| member | source | states |
|---|---|---|
| `Library.LibrarySystem.constructor` | aurelion_memory_lite/library_system.py:18-29 | the engine holds the given graph, mapping path and session start, and starts with an empty history |
| `Library.LibrarySystem.SearchByConcept` | aurelion_memory_lite/library_system.py:41-60 | result is the flattened files of the nodes matching the lower-cased term; no match gives `[]` and leaves the history unchanged; otherwise exactly one `concept` entry with the original term and the result length is appended |
| `Library.LibrarySystem.SearchByFloor` | aurelion_memory_lite/library_system.py:62-87 | outside 1..5: `[]` and no log entry; inside: the catalogue list of that floor and one `floor` entry with query `"Floor n"` and the result length |
| `Library.LibrarySystem.SearchByTag` | aurelion_memory_lite/library_system.py:89-117 | result is the files of every tag key containing the lower-cased input, key after key; exactly one `tag` entry is appended, also for zero results |
| `Library.LibrarySystem.GetRelatedConcepts` | aurelion_memory_lite/library_system.py:119-147 | result equals the greedy walk from the lower-cased start, with a hop budget of 2 unless one is given; `max_hops <= 0` gives `[]`; every reported id is a key of the graph; one `related_concepts` entry is appended |
| `Library.LibrarySystem.GetQueryHistory` | aurelion_memory_lite/library_system.py:149-156 | returns the history in call order |
| `Library.LibrarySystem.GetSessionSummary` | aurelion_memory_lite/library_system.py:158-177 | the loop's per-type counts equal the summary of the history: the bare `{0, {}}` form without a session start when it is empty |
| `Library.LibrarySystem.SearchKnowledgeGraph` | aurelion_memory_lite/library_system.py:181-192 | the loop over the nodes yields exactly the matching nodes in key order |
| `Library.LibrarySystem.ExtractFilesFromNodes` | aurelion_memory_lite/library_system.py:194-205 | the nested loop yields the `{name, concept, floor}` records of every location of every node, in order |
| `Library.LibrarySystem.GetConnections` | aurelion_memory_lite/library_system.py:221-242 | the loop yields the resolved connections: none for an id that is not a key, dangling edges skipped |
| `Library.LibrarySystem.LogQuery` | aurelion_memory_lite/library_system.py:244-251 | appends exactly one entry at the end; earlier entries are unchanged |
| `ConceptSearch.MatchIdsMembership` | aurelion_memory_lite/library_system.py:186-192 | a node is in the match list iff some key holds it and the term occurs in its lower-cased label (default `''`) or lower-cased id; never more nodes than keys |
| `ConceptSearch.MatchIdsEmpty` | aurelion_memory_lite/library_system.py:186-192 | the match list is empty iff no key and no label contains the term |
| `ConceptSearch.NoMatchNoFiles` | aurelion_memory_lite/library_system.py:51-54 | a term found in no label and no id, ignoring case, yields no nodes and no files |
| `ConceptSearch.ExtractFilesLength` | aurelion_memory_lite/library_system.py:194-205 | the number of records equals the total number of file locations |
| `ConceptSearch.ExtractFilesAt` | aurelion_memory_lite/library_system.py:196-204 | location `j` of node `i` yields its record at offset (locations of earlier nodes) + `j`: one record per location, node order then location order |
| `ConceptSearch.ExtractFilesSound` | aurelion_memory_lite/library_system.py:196-204 | every record is some node's location with that node's label and floor |
| `ConceptSearch.TotalLocationsPrefix` | aurelion_memory_lite/library_system.py:196-199 | the locations of a prefix of the nodes never exceed the total |
| `RelatedWalk.ResolveLinksSound` | aurelion_memory_lite/library_system.py:230-242 | each resolved record is an existing edge target with its label (default its id) and its files; no more records than edges; none exactly when every target dangles |
| `RelatedWalk.ResolveLinksComplete` | aurelion_memory_lite/library_system.py:233-240 | every edge target that is a key appears among the resolved records |
| `RelatedWalk.ConnectionsSpec` | aurelion_memory_lite/library_system.py:221-242 | connections are exactly the non-dangling edges of an existing node, at most its out-degree |
| `RelatedWalk.ResolveLinksAppend` | aurelion_memory_lite/library_system.py:233-242 | resolving one more edge target appends that target's record, or nothing for a dangling edge, after the records so far |
| `RelatedWalk.NoHopsNoResult` | aurelion_memory_lite/library_system.py:134 | `max_hops <= 0` gives `[]` |
| `RelatedWalk.TrailShape` | aurelion_memory_lite/library_system.py:134-143 | the walk processes at most `max_hops` nodes, never a visited one, never one twice; each but the last had connections, is a key, and is followed by its first connection's lower-cased label |
| `RelatedWalk.WalkAlongTrail` | aurelion_memory_lite/library_system.py:139-142 | the result is the connections of the processed nodes, concatenated in order |
| `RelatedWalk.ConcatConnectionsBound` | aurelion_memory_lite/library_system.py:139-142 | concatenated connections number at most the summed out-degrees, and each names an existing key |
| `RelatedWalk.RelatedConceptsBound` | aurelion_memory_lite/library_system.py:130-147 | at most `max_hops` nodes processed; result length at most the sum of their out-degrees; every returned id is a key |
| `RelatedWalk.RelatedIdsAreKeys` | aurelion_memory_lite/library_system.py:130-147 | every id the walk returns is a key of the graph |
| `RelatedWalk.WalkStep` | aurelion_memory_lite/library_system.py:134-143 | one iteration at an unvisited node with hops left has two steps. It marks the node visited and reports all its connections. It then moves to the first connection's lower-cased label, or stays put when there are none. The reported part plus the walk left to do is unchanged |
| `RelatedWalk.WalkDone` | aurelion_memory_lite/library_system.py:134-136 | with no hops left, or at a node already visited, the walk adds nothing |
| `RelatedWalk.DeadEndStops` | aurelion_memory_lite/library_system.py:139-143 | after a hop without connections the current node is unchanged, so the next iteration stops |
| `RelatedWalk.TrailBoundedByGraph` | aurelion_memory_lite/library_system.py:134-143 | whatever the budget, the walk processes at most one node more than the graph has, even on cycles |
| `RelatedWalk.DistinctKeysBound` | aurelion_memory_lite/library_system.py:131-138 | a repetition-free list of keys, as the visited nodes are, is no longer than the key set |
| `Catalogs.FilesByFloorSpec` | aurelion_memory_lite/library_system.py:207-219 | the floor records are that floor's catalogue list in order, each carrying the floor number; none outside 1..5, some inside |
| `Catalogs.FloorTablesAgree` | aurelion_memory_lite/library_system.py:72-81 | the floor check and the file catalogue cover the same floors, 1 to 5 |
| `Catalogs.TagFilesSound` | aurelion_memory_lite/library_system.py:108-113 | every tag record carries a key containing the lower-cased input, and a file of that key |
| `Catalogs.TagFilesComplete` | aurelion_memory_lite/library_system.py:111-113 | every file of every key containing the input is reported |
| `Catalogs.TagFilesNone` | aurelion_memory_lite/library_system.py:111-113 | no matching key gives no records |
| `Catalogs.TagKeysDistinct` | aurelion_memory_lite/library_system.py:99-106 | the tag keys are distinct |
| `Journal.CountsSumToLength` | aurelion_memory_lite/library_system.py:168-171 | the four per-type counts add up to the number of entries |
| `Journal.SummaryTotals` | aurelion_memory_lite/library_system.py:165-177 | empty history: `{0, {}}` with no session start; otherwise total = number of entries, every count positive, counts sum to the total |
| `Journal.CountAppend` | aurelion_memory_lite/library_system.py:169-171 | one more entry raises only its own kind's count, by one |
| `Journal.ByTypeAppend` | aurelion_memory_lite/library_system.py:170-171 | the per-type map after one more entry is the old map with that kind's count incremented (or started at 1) |
| `Journal.TypeNamesDistinct` | aurelion_memory_lite/library_system.py:244-251 | the four query-type names are distinct |
| `Architecture.GetFloor` | aurelion_memory_lite/architecture.py:9-22 | floors 1..5 give their names, anything else `"Unknown"` |
| `Architecture.GetAllFloors` | aurelion_memory_lite/architecture.py:24-26 | the table has exactly the keys 1..5 |
| `Architecture.GetFloorAgreesWithTable` | aurelion_memory_lite/architecture.py:17-26 | `get_floor(n) == get_all_floors()[n]` on every key, `"Unknown"` off the table |
| `FloorTables.FloorTablesAgree` | aurelion_memory_lite/architecture.py:9-15 | the architecture's table equals the server's floor names and covers the same floors as the server's directories and the library's catalogues |
| `FloorTables.ServerFloorsAreKnown` | aurelion_memory_mcp/server.py:46-60 | every floor the server accepts has an architecture name other than `"Unknown"` |
| `Server.FloorTablesAgree` | aurelion_memory_mcp/server.py:46-60 | names and directories cover floors 1..5, and no directory name is empty |
| `Server.NormalizeDocPath` | aurelion_memory_mcp/server.py:143-145 | the result starts with the directory name; a path already starting with it is unchanged |
| `Server.NormalizeIdempotent` | aurelion_memory_mcp/server.py:144-145 | normalising twice equals normalising once |
| `Server.NormalizeJoinsWithOneSlash` | aurelion_memory_mcp/server.py:145 | when prefixed: exactly one `/` after the directory, with the rest the original path minus only its leading `/` characters |
| `Server.PrefixTestIsTextual` | aurelion_memory_mcp/server.py:144-145 | the prefix test is textual: `Floor_01_FoundationNotes.md` is kept under `Floor_01_Foundation` |
| `Server.LeadingSlashesCollapse` | aurelion_memory_mcp/server.py:144-145 | under any directory name that `//notes.md` does not start with, `//notes.md` becomes that name followed by `/notes.md` |
| `Server.TwoSlashesStripped` | aurelion_memory_mcp/server.py:145 | `"//notes.md".lstrip("/")` is `notes.md` |
| `Server.WritePath` | aurelion_memory_mcp/server.py:139-147 | no target for a floor outside 1..5; otherwise the target starts with the floor's directory |
| `Server.WriteDocument` | aurelion_memory_mcp/server.py:137-159 | invalid floor: the `Invalid floor number` error; else a write failure's message; else `{written, floor, floor_name, size_chars}` with the normalised path |
| `Server.InvalidFloorNeverWrites` | aurelion_memory_mcp/server.py:139-141 | for an invalid floor there is no write target, and the answer is an error independent of the file system |
| `Server.ReadDocument` | aurelion_memory_mcp/server.py:120-132 | missing file: `Document not found`; otherwise path, content, size, and `lines` equal to the number of parts of `content.split("\n")` |
| `Server.ListFloor` | aurelion_memory_mcp/server.py:162-176 | floors outside 1..5 are rejected with `Invalid floor`; otherwise the floor's name with either the missing-directory note or the documents and their count |
| `Server.SearchFloors` | aurelion_memory_mcp/server.py:84-95 | a requested floor is searched alone if it is valid and its directory exists, else nothing; without one, every floor whose directory exists, ascending |
| `Server.ExistingFrom` | aurelion_memory_mcp/server.py:92-95 | the present floors from a given floor up to 5, ascending, none left out |
| `Server.FirstMatch` | aurelion_memory_mcp/server.py:104-107 | the index of the first line containing the lower-cased query, `|lines|` if none |
| `Server.SearchFile` | aurelion_memory_mcp/server.py:100-113 | a hit iff the lower-cased query occurs in the lower-cased content; its snippet is the first matching line stripped and cut to at most 200 characters, `""` if no line matches |
| `Server.MatchLiesInALine` | aurelion_memory_mcp/server.py:101-107 | a query without line breaks that occurs in a non-empty file lies within one of its lines, so the snippet comes from a line |
| `Server.MatchingLine` | aurelion_memory_mcp/server.py:101-107 | an occurrence of a query without line breaks, at a given position of the lower-cased text, lies in a line of `splitlines()` whose lower-cased form contains the query |
| `Server.OccurrenceInSlice` | aurelion_memory_mcp/server.py:105 | an occurrence inside a slice of the text is an occurrence in that slice |
| `Text.ContainsLower` | aurelion_memory_lite/library_system.py:188-189 | a case-sensitive occurrence stays an occurrence once both sides are lower-cased |
| `Text.EmptyInAll` | aurelion_memory_lite/library_system.py:112 | the empty input is in every key, as Python's `in` says |
| `Text.LowerIdempotent` | aurelion_memory_lite/library_system.py:130 | lower-casing leaves no upper-case letter and is idempotent |
| `Text.LStrip` | aurelion_memory_mcp/server.py:145 | `lstrip('/')` drops exactly the leading run of `/`: the result is a suffix, everything dropped is `/`, and it does not start with `/` |
| `Text.StripIsTrimmedSlice` | aurelion_memory_mcp/server.py:106 | `strip()` keeps one slice with only white space outside it and none at its ends |
| `Text.Take` | aurelion_memory_mcp/server.py:106 | `[:200]` is a prefix of at most 200 characters, the whole string when shorter |
| `Text.SplitLines` | aurelion_memory_mcp/server.py:104 | no line holds a line-boundary character; no lines exactly for empty text |
| `Text.SplitLinesRebuild` | aurelion_memory_mcp/server.py:104 | the text is its lines, each followed by exactly one boundary (`\r\n` or one boundary character); only a non-empty last line may have none; `\r` then `\n` is never split into two boundaries |
| `Text.TerminatorsLength` | aurelion_memory_mcp/server.py:104 | there is one boundary entry per line |
| `Text.InterleaveRebuilds` | aurelion_memory_mcp/server.py:104 | lines and their boundaries, concatenated, give the text back |
| `Text.TerminatorsAreBoundaries` | aurelion_memory_mcp/server.py:104 | every boundary entry is `\r\n` or one boundary character, except `""` after a non-empty last line |
| `Text.CrLfIsOneBoundary` | aurelion_memory_mcp/server.py:104 | a `\r` boundary is never followed by an empty line ended by `\n` |
| `Text.SplitOnCount` | aurelion_memory_mcp/server.py:131 | `count("\n") + 1` is the number of parts of `split("\n")` |
| `Text.SplitOnJoin` | aurelion_memory_mcp/server.py:131 | no part holds the separator, and joining the parts gives the text back |
| `Text.DecimalRoundTrip` | aurelion_memory_lite/library_system.py:85 | the decimal text of a floor number reads back as that number |
| `Text.NatToString` | aurelion_memory_lite/library_system.py:85 | `str(n)` for `n >= 0` is all decimal digits: `"0"` for zero, otherwise with no leading zero |
| `Text.IntToString` | aurelion_memory_mcp/server.py:141 | `str(i)`: starts with `-` exactly for negative `i`; the rest is decimal digits reading back as the absolute value, with no leading zero |
| `Scenarios.CareerSearch` | aurelion_memory_lite/library_system.py:41-60 | on the two-node graph, `"career"` finds node `a` by its label and returns its one file with label `"Career"` and no floor |
| `Scenarios.WalkFromA` | aurelion_memory_lite/library_system.py:119-147 | on the two-node graph, two hops from `a` report `b` once, then stop at the non-key `"skills"` |

## Left out

- Loading the graph (`_load_json`, aurelion_memory_lite/library_system.py:31-39): file and JSON reading are I/O. The graph is a parameter of the constructor. A missing file or a missing `knowledge_graph.nodes` path is `KnowledgeGraph.EMPTY_GRAPH`. The warning it prints is not modelled.
- Node values are modelled only with the expected JSON types: `label` a string when present, `floor` an integer when present, `file_locations` and `connects_to` lists of strings. Other JSON values are not modelled. Some make Python raise. Others are silently iterated (a string is walked character by character) or passed through into the result records (a numeric file name, a `floor` of any type, a non-string label on a connection that is never followed).
- Clocks: `datetime.now()` and `session_start.isoformat()` are strings the caller passes (`now`, `sessionStart`).
- `Text.Lower`: ASCII only, because full Unicode case mapping is out of scope. `str.lower` also maps non-ASCII letters.
- `Library.LibrarySystem.GetQueryHistory`: the source returns the list object itself, so a caller could mutate the log through it. The model returns a copy of the value; aliasing is not modelled.
- `Library.LibrarySystem.GetSessionSummary`: `by_type` is a map. The order of its keys (order of first appearance) is not modelled.
- `floor_mapping_path` is stored and never read, and the model does the same.
- Arguments of the wrong Python type (a non-integer floor, `True` standing for 1) are excluded by Dafny's types.
- In `server.py`, everything that touches the file system is left out: `get_memory_path` (environment variables and path resolution), the `rglob` of `search_files` over each chosen directory, `relative_to`, `read_text` and `write_text`, `mkdir`, and `load_session_context`. What they would return is a parameter instead: the file content, whether a file exists, the set of floors whose directory exists, the document listing, and the failure message of a write.
- `Server.SearchFile` models one file. A file whose read raises is skipped by `except Exception: continue`; this is not modelled.
- `Server.ReadDocument`: the `except` branch for a read that raises is not modelled, because read failures are file-system behaviour.
- `Server.ListFloor`: the caller supplies the document list as already sorted. Sorting the scan result is part of the directory scan, which is left out.
- The MCP tool registration, JSON marshalling, the async `main` and the stdio server are protocol plumbing, and so are left out. So are the `__main__` demo and every `print`.
- The packaging script, the quick-start example and the package `__init__` hold no logic of the core.
