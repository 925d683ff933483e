# DashQL verification model

A Dafny model of the algorithms in DashQL whose correctness is hardest to see, with proofs of what they
promise. `dafny verify dfyconfig.toml` checks the whole project.

**Semantic script diff** (`script_diff.cc`). `Ast` models the index-encoded syntax tree; `SyntaxTree` says
what tree an index stands for, and everything else is proved against that. The two stack walks (`TreeWalks`,
`Similarity`), the memoized size (`TreeSizes`, `SubtreeNodes`), the statement mapping (`StatementMapping`),
the patience piles (`PatienceLcs`) and the span coalescing (`Spans`, `TargetChanges`) keep the loops and
stacks of the source. `DiffRun` defines a diff as a run of operations and proves exact cover and uniqueness
over all runs; `ScriptDiff` is the class that computes one. What the results say about the nodes and texts of
the two scripts, without going through the functions that compute them, is proved in `NodeMeaning` (equal
statements), `KeyJoin` and `ChildPartners` (which children a walk pairs up), `ChangeMeaning` (what is
highlighted), `TreeMatches` (what the score counts) and `DiffMeaning` (the operations).

**Snippets** (`script_snippet.cc`, `script_comparison.cc`, `script_signature.cc`). `SnippetForward` and
`SnippetWalk` copy a subtree front to back, `SnippetReversal` turns the array around in place, and
`SnippetExtract` puts them together. `SnippetLayout` is the canonical layout of a tree, which makes equality
and hashing independent of where a subtree stood (`SnippetComparison`); `SnippetPositions` says where it puts
every node and what that node was copied from, `SnippetMeaning` what equality of snippets means for their
scripts, and `SnippetSignatures` what signatures tell apart.

**Catalog** (`catalog.cc`). `CatalogState` has the tables and what each operation does to them, `CatalogRuns`
the theorems over runs, and `Catalog` the class that updates the tables in place. `CatalogIds` says when
registered analyses have the ids that are declared, `CatalogLaws` what versions, declarations and index
entries say about the registered analyses, and `CatalogScenarios` has runs in which updates surprise.
Flattening has its own modules: `CatalogTree`, `CatalogTreeSteps`, `CatalogTreeBuild` and `CatalogTables`
build the tree of databases, schemas and tables, with the lists of `NameTable` and `NameOrder`; `FlatLayout`
and `FlatWriter` lay it out in arrays, `FlatIndex` sorts them by object id, and `FlatCatalog` says what they
hold. `RankOrder` and `CatalogContents` walk the entries in ranked order, and `FlatEntries` flattens them and
says in which runs their ids allow it: a name has one id as long as every update has its ids in sync; that an
id has one name is taken from ids being handed out by counting.

**Script registry** (`script_registry.cc`). `RegistryRuns` compares the lazily pruned index with a scan;
`ScriptRegistry` is the class.

**DuckDB sessions** (`duckdb_proxy.rs`). `SessionInterleavings` is a transition system whose steps are
critical sections; `SessionOwners` says when sessions and statements keep their connection in it,
`SessionBindings` why a connection is busy, `SessionIds` which ids are handed out; `DuckDBProxy` takes calls
one at a time.

**Stream batching** (`grpc_stream_manager.rs`). `StreamSteps` is the transition system of producer, queue and
readers, `StreamRuns` its invariants, `StreamOutcomes` what its batches report.

**Source maps** (`wasm_sourcemap.py`). `Vlq` and `SourceMap` write mappings and read them back.

**Statement descriptions** (`script.cc`). `DescriptionRuns` says which comments describe a statement,
`Descriptions` finds them.

Where the code does not do what one would expect, the model follows the code and a lemma says exactly when it
does: the index by schema name after an update, registry lookups after pruning, updates with ids that are out
of sync, sessions and statements whose connection is removed before they are registered or after they were
collected, and the values of visualisation enums in snippets. One branch of the diff's section loop, the KEEP
inside a section, is proved to be dead.

Every lemma switches automatic induction off, so each induction is spelled out.

## Model

| member | source | states |
|---|---|---|
| AttributeOrder.SortedIsStableSort | packages/dashql-core/src/script_diff.cc:58-68 | a list is the sorted child list of an object exactly if it is a permutation of the child range, strictly ordered by key and, among equal keys, by grammar position |
| AttributeOrder.CollectSortedChildren | packages/dashql-core/src/script_diff.cc:58-68 | the scratch list holds exactly that sorted list |
| Ast.Script.ResolveTextSpan | packages/dashql-core/src/script.cc:53-67 | a token span resolves to a character span within the text, also for empty and out-of-range spans |
| SyntaxTree.SimilarityAgreesWithEquality | packages/dashql-core/src/script_diff.cc:158-352 | the number of matching nodes of a merge-join walk is at most the smaller tree, and equals the larger size exactly when the trees are equal |
| TreeWalks.CompareNodes | packages/dashql-core/src/script_diff.cc:158-277 | one step of the similarity walk: whether two nodes agree apart from their subtrees, and the child pairs that the join by key pushes |
| TreeWalks.EqualByChildren | packages/dashql-core/src/script_diff.cc:280-352 | two subtrees are equal exactly when their roots agree and all their joined child pairs are equal |
| TreeWalks.CheckDeepEquality | packages/dashql-core/src/script_diff.cc:280-352 | the early-exit walk answers true exactly when both roots are valid and stand for one tree, or both are invalid |
| TreeSizes.ComputeTreeSize | packages/dashql-core/src/script_diff.cc:76-130 | the memoized walk ends with the size of the tree, 0 for an invalid root, and leaves a memo in which every known size is right |
| TreeSizes.SumPermutation | packages/dashql-core/src/script_diff.cc:76-130 | a sum of subtree sizes does not depend on the order of the children, so sorting attributes does not change it |
| SubtreeNodes.SizeCountsNodes | packages/dashql-core/src/script_diff.cc:76-130 | if no two containers share a child, the size is the number of nodes reachable from the root |
| Similarity.ComputeSimilarity | packages/dashql-core/src/script_diff.cc:158-277 | the stack walk with folding yields the matching nodes of the two trees and the larger of their sizes; (0, 0) if a root is invalid; the memos stay right |
| Similarity.ScoreAgreesWithEquality | packages/dashql-core/src/script_diff.cc:158-277 | the score of valid roots lies in [0, 1] and is 1 exactly when the deep-equality walk would answer true |
| AttributeSets.EqualityIgnoresAttributeOrder | packages/dashql-core/src/script_diff.cc:280-352 | two objects, one of which has distinct keys, are deep-equal exactly when they have the same multiset of (key, subtree) attributes |
| StatementMapping.MapStatements | packages/dashql-core/src/script_diff.cc:355-409 | `equalPairs` is the sorted list of all edges, and `uniquePairs` exactly those that share no end with another, without transitivity; NodeMeaning.EqualEdgesMeaning says which pairs are edges |
| StatementMapping.UnmarkedMappingsAreIsolated | packages/dashql-core/src/script_diff.cc:355-409 | the mappings whose ends were never marked ambiguous are exactly the isolated edges |
| PatienceLcs.FindLcs | packages/dashql-core/src/script_diff.cc:412-451 | a strictly increasing subsequence of the input, and no strictly increasing subsequence is longer |
| PatienceLcs.WalkBack | packages/dashql-core/src/script_diff.cc:412-451 | following the back-links from the last pile yields one pair per pile, strictly increasing in both ids |
| PatienceLcs.ChainsAtMostPiles | packages/dashql-core/src/script_diff.cc:412-451 | no strictly increasing chain of pairs is longer than the number of piles |
| Spans.Coalesce | packages/dashql-core/src/script_diff.cc:454-572 | the coalesced list is sorted, has a gap between neighbours, and covers the same positions |
| Spans.CoalescedUnique | packages/dashql-core/src/script_diff.cc:454-572 | two such lists that cover the same positions are the same list |
| TargetChanges.CollectTargetChanges | packages/dashql-core/src/script_diff.cc:454-572 | the highlighted spans are coalesced and cover exactly the text of the changed target nodes, empty for invalid roots; ChangeMeaning.ChangedMeaning says which nodes those are |
| TargetChanges.EqualStatementsHighlightNothing | packages/dashql-core/src/script_diff.cc:280-352 | deep-equal statements yield no highlighted span |
| DiffRun.DiffIsExactCover | packages/dashql-core/src/script_diff.cc:575-677 | in any finished run every source and every target statement occurs in exactly one operation, and codes say which sides an operation has |
| DiffRun.KeptIsLcs | packages/dashql-core/src/script_diff.cc:610-675 | the KEEP operations are the pairs of the chain, all of them and in order |
| DiffRun.NextKeptIsFree | packages/dashql-core/src/script_diff.cc:610-675 | the target of the next chain pair was not taken by an earlier operation |
| DiffRun.DiffIsUnique | packages/dashql-core/src/script_diff.cc:575-677 | equality, scores and chain determine the run |
| ScriptDiffs.ScriptDiff.Compute | packages/dashql-core/src/script_diff.cc:575-677 | the computed operations are a finished run for the two scripts over a longest chain of unambiguous pairs; a second call returns the same list |
| ScriptDiffs.FindBest | packages/dashql-core/src/script_diff.cc:639-672 | the update target is the first one with the highest score, at or above the threshold, among undecided free targets of the section |
| DiffTheorems.ScriptDiffCovers | packages/dashql-core/src/script_diff.cc:575-677 | a computed diff of two scripts is an exact cover, and its KEEPs are a longest chain of unambiguous pairs |
| DiffTheorems.KeepsAndMovesPairEqualStatements | packages/dashql-core/src/script_diff.cc:610-637 | KEEP and MOVE pair statements by the edges of the mapping, which NodeMeaning.EqualEdgesMeaning explains |
| DiffTheorems.UpdatesAreSimilarNotEqual | packages/dashql-core/src/script_diff.cc:639-672 | an UPDATE pairs statements that are not deep-equal, with a score in [0.75, 1) |
| DiffTheorems.ScriptDiffIsUnique | packages/dashql-core/src/script_diff.cc:575-677 | given the chain, two scripts have one diff, statement spans and highlighted spans included |
| SelfDiff.SelfDiffIsIdentity | packages/dashql-core/src/script_diff.cc:133-677 | diffing a script with valid roots against itself pairs every statement with itself, in order: KEEP exactly where it equals no other statement, MOVE elsewhere |
| NodeMeaning.EqualEdgesMeaning | packages/dashql-core/src/script_diff.cc:132-156 | a pair of statements is an edge if and only if both roots are valid and they are written alike (one type, one child count, one string between the first and the last symbol) or stand for one tree |
| NodeMeaning.EqualityOnNodes | packages/dashql-core/src/script_diff.cc:280-352 | two nodes stand for one tree exactly if they have one type, the same value, name or text, and children that stand for one tree each: an array's position by position, an object's in key order with the same keys |
| ChildPartners.ChildPairsMeaning | packages/dashql-core/src/script_diff.cc:494-533 | a step of the walks descends into two children exactly if they stand at one position of two arrays, or in two objects of one type carry one key that occurs as often among the children in front of them |
| ChildPartners.AddedMeaning | packages/dashql-core/src/script_diff.cc:502-536 | the target children that a node pair reports as added are exactly those without such a partner |
| ChangeMeaning.ChangedMeaning | packages/dashql-core/src/script_diff.cc:454-550 | a target node is recorded if and only if a path of partners below nodes of one type leads to its parent pair and it has no partner, or one of another type, or one of other content |
| ChangeMeaning.HighlightMeaning | packages/dashql-core/src/script_diff.cc:458-462 | the recorded spans cover exactly the positions between the first and the last symbol of such nodes |
| ChangeMeaning.EmptyHighlightsAgree | packages/dashql-core/src/script_diff.cc:454-572 | if nothing is highlighted, every target node has a partner of its type and content, as long as no node on the way to it has an empty text |
| TreeMatches.MatchingCountsPlaces | packages/dashql-core/src/script_diff.cc:158-277 | the number of matching nodes is the number of paths of joined children, all of one type, whose ends agree in type, content and keys |
| DiffMeaning.ScoreMeaning | packages/dashql-core/src/script_diff.cc:158-277 | the score is the number of places at which the trees agree, divided by the larger size |
| DiffMeaning.KeptAndMovedMeaning | packages/dashql-core/src/script_diff.cc:610-637 | KEEP and MOVE pair statements with valid roots that are written alike or stand for one tree |
| DiffMeaning.KeptMeaning | packages/dashql-core/src/script_diff.cc:383-409 | a kept statement is the same as its partner and as no other statement of either script |
| DiffMeaning.KeepsAreLongest | packages/dashql-core/src/script_diff.cc:412-451 | no chain of statements that are the same as no other ones, increasing on both sides, is longer than the KEEPs are many |
| DiffMeaning.MoveTakesFirst | packages/dashql-core/src/script_diff.cc:618-637 | a MOVE takes the first target of the same statement that no earlier operation took |
| DiffMeaning.ChangedHaveNoSame | packages/dashql-core/src/script_diff.cc:618-672 | a statement is updated or deleted only if all targets of the same statement are taken |
| DiffMeaning.UpdateMeaning | packages/dashql-core/src/script_diff.cc:639-672 | an UPDATE pairs roots of one type that are not written alike and stand for different trees, with a score of at least 0.75 and below 1 |
| DiffMeaning.UpdateTakesBest | packages/dashql-core/src/script_diff.cc:639-672 | no free target between the neighbouring KEEPs whose root has the same type and is not written alike scores higher than the one an UPDATE takes, and those in front of it score less |
| DiffMeaning.DeletedHasNoSimilar | packages/dashql-core/src/script_diff.cc:639-672 | a statement is deleted only if all these targets score less than 0.75 |
| DiffMeaning.InsertedInOrder | packages/dashql-core/src/script_diff.cc:610-675 | when a target is inserted or kept, all targets in front of it are taken |
| DiffMeaning.InsertsCloseSection | packages/dashql-core/src/script_diff.cc:610-675 | an INSERT is followed by INSERTs only, up to the next KEEP |
| DiffMeaning.OpSpans | packages/dashql-core/src/script_diff.cc:575-608 | the spans of an operation cover the text from the first to the last symbol of its statements, and nothing for a missing side or an invalid root |
| DiffMeaning.UpdateHighlights | packages/dashql-core/src/script_diff.cc:454-572 | the highlights of an UPDATE are coalesced and cover exactly the text of the changed nodes below its target |
| NodeMeaning.EmptyNodeSpan | packages/dashql-core/src/script.cc:53-62 | a node without symbols has an empty span at the begin of the next symbol, or without one at the end of the text in front of its two terminating bytes |
| SnippetShapes.MirrorShape | packages/dashql-core/src/script_snippet.cc:98-152 | nodes that agree with their images all the way down stand for the same tree, their own keys aside |
| SnippetForward.VisitParents | packages/dashql-core/src/script_snippet.cc:111-151 | after every visit each copied node but the root lies in the child block of the node its parent index names |
| SnippetWalk.TranslateName | packages/dashql-core/src/script_snippet.cc:114-126 | a name keeps its text under its new index, whether copied now or before |
| SnippetWalk.CopySubtree | packages/dashql-core/src/script_snippet.cc:98-152 | the walk ends with every reachable node copied, its children in one block behind it, names translated and markers found |
| SnippetReversal.TurnAround | packages/dashql-core/src/script_snippet.cc:161-190 | swapping from both sides patches every container exactly once, for even and odd sizes |
| SnippetExtract.Extract | packages/dashql-core/src/script_snippet.cc:66-202 | an invalid root gives the empty snippet; otherwise the text is that of the root, the snippet stands for the tree of the subtree with its markers, every node says what its source says, with the same span relative to the text, its root is last, its child blocks tile all other positions and end before their parents, every container below the root names the parent whose block it lies in, and it is the canonical layout of the tree |
| SnippetComparison.Equals | packages/dashql-core/src/script_comparison.cc:6-50 | the loop answers true exactly when the node arrays have one length and agree position by position |
| SnippetComparison.EqualsIffSameTree | packages/dashql-core/src/script_comparison.cc:6-50 | two extracted snippets are equal exactly when their subtrees are one tree, wherever they stood; up to names and literals if these are skipped, and always up to the values of visualisation-enum leaves |
| SnippetComparison.ComputeSignature | packages/dashql-core/src/script_signature.cc:7-46 | the loop over the nodes computes the signature whose meaning, over uninterpreted hash functions, is SnippetSignatures.SignatureTells |
| SnippetComparison.EqualSnippetsHashAlike | packages/dashql-core/src/script_signature.cc:7-46 | snippets that compare equal have one signature |
| SnippetComparison.OccurrencesHashAlike | packages/dashql-core/src/script_signature.cc:7-46 | two occurrences of one tree in any scripts have one signature, where one tree is understood up to the values of visualisation-enum leaves |
| SnippetComparison.EqualWithoutNames | packages/dashql-core/src/script_comparison.cc:6-50 | snippets that are equal with names and literals are equal without them |
| SnippetPositions.ChildOffset | packages/dashql-core/src/script_snippet.cc:98-190 | in a snippet the child offset of every container, and of every leaf that is taken for one, is the number of nodes whose parent comes after it in pre-order |
| SnippetPositions.CanonicalPlaced | packages/dashql-core/src/script_snippet.cc:98-152 | the walk places the nodes of a tree in pre-order of their parents, the last child first, and every node once |
| SnippetPositions.RankIsPosition | packages/dashql-core/src/script_snippet.cc:98-152 | the pre-order position of the end of a path |
| SnippetPositions.EveryPositionHasSource | packages/dashql-core/src/script_snippet.cc:66-202 | every position of a snippet and the node it was copied from are the ends of one path of child numbers |
| SnippetPositions.VisEnumValueOverwritten | packages/dashql-core/src/script_snippet.cc:127-190 | wherever it stands, the value of a visualisation-enum leaf survives extraction exactly when it is the number of nodes whose parent comes after the leaf in pre-order |
| SnippetPositions.VisEnumRootOverwritten | packages/dashql-core/src/script_snippet.cc:127-190 | extracted on its own, such a leaf keeps its value exactly when it is zero |
| SnippetPositions.NodeOfPath | packages/dashql-core/src/script_snippet.cc:66-202 | a position of the snippet and the node of the script at the end of the same path agree in type, key (the root's aside), child count, name, value and marker, and in the span relative to the root's |
| SnippetPositions.TextOfPath | packages/dashql-core/src/script_snippet.cc:11-18 | for nodes of every type, the position's span is the source's span moved by the begin of the root's, and the snippet's text there is the script's text of the source |
| SnippetMeaning.EqualIffSourcesAgree | packages/dashql-core/src/script_comparison.cc:6-50 | two extracted snippets are equal if and only if every path leads to nodes of the two scripts that agree in type, key, child count and value, and, unless skipped, in name or text |
| SnippetSignatures.SignatureTells | packages/dashql-core/src/script_signature.cc:7-46 | with hash functions that lose nothing, snippets of one length and equal node types have one signature if and only if all nodes agree in the key modulo 2^16, in the name or text unless skipped, in the child count modulo 2^32, and below OBJECT_KEYS in the value modulo 2^16 |
| CatalogRuns.EveryRunIsConsistent | packages/dashql-core/src/catalog.cc:252-794 | in every state of every run of loads, re-loads, drops and clears: the entry tables are in bijection, the qualified index has exactly the (database, schema, rank, id) of registered analyses, and their schemas and databases are declared |
| CatalogRuns.SchemaIndexInEveryRun | packages/dashql-core/src/catalog.cc:550-794 | the index by schema name is exact in every run in which no analysis has one schema name in two databases |
| CatalogRuns.SchemaIndexAfterUpdate | packages/dashql-core/src/catalog.cc:702-738 | an update keeps the index by schema name exact if and only if every schema name that loses a database and is still used also gains one |
| CatalogRuns.UpdateLosesSchemaName | packages/dashql-core/src/catalog.cc:715-716 | any update from two databases with one schema name to one of them loses the name in the index by schema name |
| CatalogScenarios.RunLosesSchemaName | packages/dashql-core/src/catalog.cc:550-775 | a run from the empty catalog after which a script still has a schema that the index by schema name no longer lists |
| CatalogRuns.UpdateIsDropThenLoad | packages/dashql-core/src/catalog.cc:550-794 | an update, which never checks ids, leaves entry tables and qualified keys as dropping and loading again with the same rank if and only if the ids of the new analysis are in sync with the declarations; otherwise that load fails and the script is gone; in sync, the registered ids agree exactly when those of kept schemas do |
| CatalogScenarios.RunRegistersUndeclaredId | packages/dashql-core/src/catalog.cc:588-775 | a run from the empty catalog in which a re-load succeeds with an id that is not the declared one, while drop-then-load would fail |
| CatalogScenarios.LoadHasOutcome | packages/dashql-core/src/catalog.cc:550-644 | every load has an outcome in every state |
| CatalogIds.UpdateKeepsIdsIff | packages/dashql-core/src/catalog.cc:646-775 | an update keeps the ids of all registered analyses equal to the declared ones if and only if those of the new analysis are in sync |
| CatalogIds.RunKeepsIdsIff | packages/dashql-core/src/catalog.cc:252-794 | in every run of loads, re-loads, drops and clears the ids of registered analyses are the declared ones throughout if and only if every update has its ids in sync |
| CatalogRuns.SchemaKeysOfUpdate | packages/dashql-core/src/catalog.cc:550-794 | the keys of the index by schema name agree with drop-then-load if and only if, with ids in sync, the condition of SchemaIndexAfterUpdate holds, and out of sync the update loses all schema names |
| CatalogRuns.DropUndoesLoad | packages/dashql-core/src/catalog.cc:550-644 | dropping a freshly loaded script restores the entry tables and both indexes |
| CatalogState.UpdateKeepsValid | packages/dashql-core/src/catalog.cc:646-775 | an update keeps the tables consistent |
| CatalogState.DropKeepsValid | packages/dashql-core/src/catalog.cc:777-794 | a drop keeps the tables consistent |
| CatalogState.LoadKeepsValid | packages/dashql-core/src/catalog.cc:550-644 | loading a new script keeps the tables consistent |
| Catalogs.Catalog.Clear | packages/dashql-core/src/catalog.cc:252-259 | entries and indexes are emptied, declarations stay, the version grows |
| Catalogs.Catalog.LoadScript | packages/dashql-core/src/catalog.cc:550-644 | every outcome: not analyzed, foreign catalog, update of a registered script, id collision, ids out of sync (what was declared on the way stays), or registration |
| Catalogs.Catalog.DeclareDatabases | packages/dashql-core/src/catalog.cc:588-602 | fails exactly if a database is declared under another id; declarations are only added |
| Catalogs.Catalog.DeclareSchemas | packages/dashql-core/src/catalog.cc:603-619 | likewise for schemas |
| Catalogs.Catalog.UpdateScript | packages/dashql-core/src/catalog.cc:646-775 | nothing for an unchanged analysis; otherwise exactly the difference is applied to indexes and declarations |
| Catalogs.Catalog.EraseSchemas | packages/dashql-core/src/catalog.cc:704-725 | vanished schemas lose their keys, and their declaration unless another entry has them |
| Catalogs.Catalog.InsertNewSchemas | packages/dashql-core/src/catalog.cc:726-751 | new schemas gain their keys and are declared; their database is declared already |
| Catalogs.Catalog.EraseDatabases | packages/dashql-core/src/catalog.cc:753-767 | databases the script no longer has are removed unless another entry refers to them |
| Catalogs.Catalog.DropScript | packages/dashql-core/src/catalog.cc:777-794 | the script leaves every table but the declarations; an unregistered script changes nothing |
| CatalogLaws.SchemasAfterUpdate | packages/dashql-core/src/catalog.cc:702-751 | after an update a schema is declared exactly if some registered analysis uses it, or if it was declared before and the replaced analysis did not use it |
| CatalogLaws.DatabasesAfterUpdate | packages/dashql-core/src/catalog.cc:657-767 | likewise for databases |
| CatalogLaws.UpdateKeepsInfosIff | packages/dashql-core/src/catalog.cc:702-751 | an update keeps the entry id and schema id under every key of the qualified index right if and only if the schemas that stay keep their ids |
| CatalogLaws.EveryRunHasExactInfos | packages/dashql-core/src/catalog.cc:622-775 | in every run whose updates have their ids in sync, every key of the qualified index leads to the analysis it was made for and to the id that analysis gives the schema |
| CatalogLaws.VersionStep | packages/dashql-core/src/catalog.cc:252-794 | the version grows by one exactly when an action registers, replaces or removes an analysis or clears the catalog; all other actions leave entries and indexes alone |
| CatalogLaws.VersionNamesEntries | packages/dashql-core/src/catalog.cc:252-794 | two states of a run with one version have the same entries and indexes |
| CatalogLaws.DeclarationsStay | packages/dashql-core/src/catalog.cc:252-794 | only an update takes a declaration back, and no action changes what a name that stays declared is declared as |
| RegistryRuns.EveryLookupIsScan | packages/dashql-core/src/script_registry.cc:15-97 | in every run of additions and lookups with one version per analysis and nondecreasing targets that are not older than any registered analysis, every lookup returns what a full scan would |
| RegistryRuns.LookupCovers | packages/dashql-core/src/script_registry.cc:39-97 | what a lookup prunes is older than its target |
| RegistryRuns.LookupIsScanIff | packages/dashql-core/src/script_registry.cc:15-97 | with one version per analysis, a lookup in any run is a scan if and only if no registered analysis with a matching use was looked up for this column under another version since it was added |
| RegistryRuns.IndexInRun | packages/dashql-core/src/script_registry.cc:15-97 | in any such run the index lists the column of a registered use if and only if it was not looked up under another version since the analysis was added |
| RegistryRuns.LookupOfIndexIsScanIff | packages/dashql-core/src/script_registry.cc:39-97 | without any assumption, a lookup is a scan exactly when the index lists every matching use and none comes behind an outdated one of its analysis |
| RegistryRuns.LookupWithoutVersionAfterPruning | packages/dashql-core/src/script_registry.cc:39-97 | a run from the empty registry in which a lookup without a target misses what the lookup in front pruned |
| ScriptRegistries.ScriptRegistry.AddScript | packages/dashql-core/src/script_registry.cc:15-37 | the analysis is replaced and its resolved columns are added to both indexes; stale keys stay |
| ScriptRegistries.ScriptRegistry.FindColumnFilters | packages/dashql-core/src/script_registry.cc:39-97 | the hits of all listed scripts up to their first outdated use, and pruning of exactly the outdated keys |
| ScriptRegistries.ScriptRegistry.FindColumnComputations | packages/dashql-core/src/script_registry.cc:99-156 | likewise for computations |
| ScriptRegistries.CollectUses | packages/dashql-core/src/script_registry.cc:63-86 | within one analysis the uses before the first outdated one, each once |
| ScriptRegistries.Search | packages/dashql-core/src/script_registry.cc:39-97 | over the keys of a column in any order, the reported hits without duplicates and the outdated keys |
| SessionInterleavings.OneSessionInEveryRun | packages/dashql-native/src/duckdb_proxy.rs:123-353 | in every interleaving of critical sections at most one session is registered for a connection, a stream or an upload |
| SessionInterleavings.StepKeepsValid | packages/dashql-native/src/duckdb_proxy.rs:123-353 | every critical section keeps registered and half-registered sessions active on their connection |
| SessionInterleavings.BindKeepsSessions | packages/dashql-native/src/duckdb_proxy.rs:455-486 | binding a new session under the connection lock keeps all other sessions apart from it |
| SessionInterleavings.ClearKeepsSessions | packages/dashql-native/src/duckdb_proxy.rs:123-141 | clearing a binding never clears one that belongs to another session |
| SessionOwners.StepKeepsSessionsIff | packages/dashql-native/src/duckdb_proxy.rs:123-353 | one critical section leaves every registered session with its connection exactly if it registers no session for a removed connection and removes no connection that has a session |
| SessionOwners.RunKeepsSessionsIff | packages/dashql-native/src/duckdb_proxy.rs:123-353 | in every interleaving, all registered sessions have their connection all the time exactly if every step meets this condition |
| SessionOwners.SessionHasConnectionIff | packages/dashql-native/src/duckdb_proxy.rs:455-486 | in every interleaving, a registered session has its connection exactly if the connection was there when the session was registered and was not removed since |
| SessionOwners.StepKeepsStatementsIff | packages/dashql-native/src/duckdb_proxy.rs:688-705 | likewise for prepared statements and one critical section |
| SessionOwners.RunKeepsStatementsIff | packages/dashql-native/src/duckdb_proxy.rs:688-705 | likewise for prepared statements and every interleaving |
| SessionOwners.StatementHasConnectionIff | packages/dashql-native/src/duckdb_proxy.rs:688-705 | likewise for one prepared statement |
| SessionOwners.GoneStaysGone | packages/dashql-native/src/duckdb_proxy.rs:315-353 | a connection that was removed never comes back: ids are not given out again |
| SessionBindings.EveryRunExplains | packages/dashql-native/src/duckdb_proxy.rs:123-486 | in every interleaving, a connection in the table that is busy has the session registered, or some thread is about to register it or to clear the binding |
| SessionBindings.StepKeepsExplained | packages/dashql-native/src/duckdb_proxy.rs:123-486 | every critical section keeps this |
| SessionBindings.AtRestBothAgree | packages/dashql-native/src/duckdb_proxy.rs:123-486 | in every interleaving, while no thread is within a call, the bindings of connections and the registered sessions agree in both directions |
| SessionOwners.StaleSession | packages/dashql-native/src/duckdb_proxy.rs:455-486 | a run in which the connection is removed after its session was bound and before the session is registered |
| SessionOwners.MissedSession | packages/dashql-native/src/duckdb_proxy.rs:207-353 | a run in which the session is registered after those of its connection were collected and before the connection is removed |
| SessionOwners.StaleStatement | packages/dashql-native/src/duckdb_proxy.rs:688-705 | a run in which the connection is removed while a statement for it is being prepared |
| DuckDBProxies.OneSessionBetweenCalls | packages/dashql-native/src/duckdb_proxy.rs:455-486 | between calls a connection has one session, and its binding names exactly that session |
| DuckDBProxies.BusyIffSession | packages/dashql-native/src/duckdb_proxy.rs:455-462 | a connection is busy exactly when a session is registered for it |
| DuckDBProxies.StartKeepsAgreement | packages/dashql-native/src/duckdb_proxy.rs:455-486 | starting a session keeps bindings and tables in agreement in both directions |
| DuckDBProxies.EndKeepsAgreement | packages/dashql-native/src/duckdb_proxy.rs:123-161 | ending a session keeps bindings and tables in agreement in both directions |
| DuckDBProxies.DuckDBProxy.Connect | packages/dashql-native/src/duckdb_proxy.rs:315-338 | a fresh connection without sessions, or an error and no change |
| DuckDBProxies.DuckDBProxy.Disconnect | packages/dashql-native/src/duckdb_proxy.rs:340-353 | the connection goes with its streams, uploads and statements, and nothing else |
| DuckDBProxies.DuckDBProxy.ResetDatabase | packages/dashql-native/src/duckdb_proxy.rs:285-299 | all connections of the database go with their sessions and statements, even if the reset then fails |
| DuckDBProxies.DuckDBProxy.DestroyDatabase | packages/dashql-native/src/duckdb_proxy.rs:262-269 | the database goes with its connections, sessions and statements |
| DuckDBProxies.DuckDBProxy.StartSession | packages/dashql-native/src/duckdb_proxy.rs:455-486 | refused exactly for unknown databases and connections, busy connections and failing queries; otherwise registered and bound under an id that was never given out |
| DuckDBProxies.DuckDBProxy.ReadQueryStream | packages/dashql-native/src/duckdb_proxy.rs:488-612 | a foreign or unknown stream is refused; the read that meets the end of the stream removes it, other reads and failures change nothing |
| DuckDBProxies.DuckDBProxy.DestroyQueryStream | packages/dashql-native/src/duckdb_proxy.rs:614-649 | a foreign or unknown stream is refused; the stream is removed unless DuckDB fails to cancel it |
| DuckDBProxies.DuckDBProxy.PushUploadChunk | packages/dashql-native/src/duckdb_proxy.rs:808-853 | a foreign or unknown upload is refused; the accepted chunk that finishes the upload removes it |
| DuckDBProxies.DuckDBProxy.DestroySessionEntry | packages/dashql-native/src/duckdb_proxy.rs:123-161 | the session leaves its table and the binding of its connection is cleared |
| DuckDBProxies.DuckDBProxy.CreatePreparedStatement | packages/dashql-native/src/duckdb_proxy.rs:688-705 | registered for a live connection only, under an id that was never given out; earlier statements keep theirs and their owner |
| SessionIds.StatementIdIsNew | packages/dashql-native/src/duckdb_proxy.rs:688-705 | in every interleaving the id of a new prepared statement was registered in no earlier state, also not for a statement that is gone |
| SessionIds.StatementsStay | packages/dashql-native/src/duckdb_proxy.rs:688-705 | a step keeps every statement with its owner but the one it removes, and adds only the one its thread prepared |
| SessionIds.SessionsStay | packages/dashql-native/src/duckdb_proxy.rs:123-486 | likewise for sessions |
| SessionIds.SessionIdIsNew | packages/dashql-native/src/duckdb_proxy.rs:455-486 | a session is bound under an id that no session of its kind has |
| SessionIds.ConnectionIsNew | packages/dashql-native/src/duckdb_proxy.rs:315-338 | a new connection has an id that no connection of its database had before |
| SessionIds.ThreadsProceed | packages/dashql-native/src/duckdb_proxy.rs:123-486 | in every interleaving a thread within a call can take its next critical section, whatever the others did |
| StreamRuns.EveryRunConserves | packages/dashql-native/src/grpc_stream_manager.rs:86-262 | in every state of every run: taken, held and remaining messages are the produced ones in order, the queue holds at most 10 events, and every returned batch is within its limit but for its last message |
| StreamRuns.BatchesConserve | packages/dashql-native/src/grpc_stream_manager.rs:86-262 | until a read failure or a cancelled read: the returned batches, the current batch and what is still to be read are the produced messages |
| StreamRuns.FinishedMeansComplete | packages/dashql-native/src/grpc_stream_manager.rs:223-234 | once the end of the stream was reported, the returned batches hold every message |
| StreamRuns.NeverClosed | packages/dashql-native/src/grpc_stream_manager.rs:90-158 | no reader sees the channel closed and no send fails, because the shared entry keeps the sender alive |
| StreamRuns.OtherStepsDeliver | packages/dashql-native/src/grpc_stream_manager.rs:184-262 | only a read failure and a cancelled read throw messages away; a timeout does not |
| StreamRuns.ReceiveKeepsValid | packages/dashql-native/src/grpc_stream_manager.rs:223-262 | receiving a message, the end, or a failure keeps the stream conserved |
| StreamRuns.FinalIsTheRest | packages/dashql-native/src/grpc_stream_manager.rs:107-158 | the event that ends the stream is the last one |
| StreamOutcomes.TrailersAreTheServers | packages/dashql-native/src/grpc_stream_manager.rs:223-234 | in every run a batch reports the end of the stream only if the stream ended, and then with exactly the trailers of the server; other batches have none |
| StreamOutcomes.NewBatchKeepsLimit | packages/dashql-native/src/grpc_stream_manager.rs:184-262 | every returned batch holds the limit of the read it answers: all messages but the last fit, and it is flushed for its size exactly if all together do not; at most ten events wait |
| StreamOutcomes.RegisteredUntilTheEnd | packages/dashql-native/src/grpc_stream_manager.rs:162-262 | the stream is registered exactly until it is destroyed or its final event is read |
| StreamOutcomes.StepReturns | packages/dashql-native/src/grpc_stream_manager.rs:184-262 | a step returns a batch exactly if the read overflows its limit, meets the end, or expires with messages; the batch says which and holds what the read held, with the message that made it overflow |
| StreamOutcomes.NeverStuck | packages/dashql-native/src/grpc_stream_manager.rs:162-262 | in every run a registered stream can be read, a waiting read gets the receiver once it is free, and a read that holds it takes an event or the producer delivers one, also after a full queue |
| Vlq.EncodeVlq | scripts/wasm_sourcemap.py:116-123 | the loop writes the digits of the signed number, lowest first |
| Vlq.VlqRoundTrip | scripts/wasm_sourcemap.py:116-123 | the decoder of ECMA-426 reads back every integer and what follows it |
| Vlq.PrefixFree | scripts/wasm_sourcemap.py:116-123 | no encoding is a prefix of another and the encoding is injective on all integers |
| SourceMaps.MappingsRoundTrip | scripts/wasm_sourcemap.py:346-371 | splitting at commas, decoding and summing up gives back every list of positions |
| SourceMaps.MappingsInjective | scripts/wasm_sourcemap.py:346-371 | different positions are never written the same |
| SourceMaps.BuildSourcemap | scripts/wasm_sourcemap.py:313-371 | decoding the written mappings gives, for every entry with a line, its offset address, its source, its line and its column from zero; sources are listed once |
| SourceMaps.KeptHaveLines | scripts/wasm_sourcemap.py:328-338 | the entries that are written are exactly those with a line, in order |
| Descriptions.FindSqlEnd | packages/dashql-core/src/script.cc:293-305 | a statement is extended behind its first semicolon outside comments before the next root, if there is one |
| Descriptions.StatementSourceEnd | packages/dashql-core/src/script.cc:243-262 | the source ends behind the longest run of comments in front of the limit, each of which follows the previous end with a blank gap and no line break; without one it ends with the statement |
| Descriptions.SourceEndUnique | packages/dashql-core/src/script.cc:243-262 | there is one such source end |
| Descriptions.AssociateDescriptions | packages/dashql-core/src/script.cc:277-342 | every statement gets its span, and as description the longest run of leading comments between the previous span and the statement, if only blanks separate it from the statement |
| Descriptions.SpansOrdered | packages/dashql-core/src/script.cc:277-310 | statement spans contain their roots and are ordered and disjoint |
| Descriptions.NoSharedComment | packages/dashql-core/src/script.cc:312-341 | no comment describes two statements |
| Descriptions.DescriptionsAdjacent | packages/dashql-core/src/script.cc:312-341 | a description lies between the previous span and its statement, only blanks and semicolons separate its comments, and its first comment starts the text or follows a line break |
| DescriptionRuns.LongestRunStep | packages/dashql-core/src/script.cc:319-331 | continuing or restarting the run at each comment keeps the longest run |
| FlatEntries.FlattenEntries | packages/dashql-core/src/catalog.cc:292-548 | the flattening of a catalog's entries: what Flatten states, for the references of all entries and, of every table, the first declaration by rank, entry id and position |
| CatalogContents.WinnersAreFirst | packages/dashql-core/src/catalog.cc:401-416 | walking the entries in ranked order, the declarations that win are the first ones by rank, entry id and position |
| CatalogContents.CollectReferences | packages/dashql-core/src/catalog.cc:359-395 | the references of all entries, visited in any order, every schema behind its database |
| RankOrder.ListRanked | packages/dashql-core/src/catalog.cc:401-404 | the ordered set of entries: each once, by rank and then by id |
| FlatEntries.RunCanBeFlattened | packages/dashql-core/src/catalog.cc:252-794 | whenever every update of a run has its ids in sync, the entries of the catalog meet what flattening requires of ids, if no id is given to two names |
| FlatEntries.OneIdPerName | packages/dashql-core/src/catalog.cc:588-619 | if the registered analyses have the declared ids, a name has one id |
| FlatCatalogs.Flatten | packages/dashql-core/src/catalog.cc:292-548 | the flattening of listed references and declarations: a duplicate-free dictionary; child ranges of each level partition the next one in order and back-indices match; exactly the referenced databases and schemas and the first declaration of every table are listed, with columns in order, no table twice; the arrays are as long as there are databases, schemas, winning declarations and columns of these; entries with one parent come in the order of their names; the indexes by object id are sorted and list every entry once |
| FlatCatalogs.TablesListed | packages/dashql-core/src/catalog.cc:488-509 | a declaration stands in the table array exactly if the tree holds it: id, schema through the parent entry, name and column names through the dictionary |
| FlatCatalogs.TableListedOnce | packages/dashql-core/src/catalog.cc:397-446 | two table entries of one schema and name are one entry |
| FlatCatalogs.SchemasListed | packages/dashql-core/src/catalog.cc:476-486 | a schema stands in the schema array, under the entry of its database, exactly if the tree holds it |
| FlatCatalogs.ParentsMatch | packages/dashql-core/src/catalog.cc:465-509 | every entry carries its own position, and the child range of the parent it names holds it |
| FlatLayout.TilesCover | packages/dashql-core/src/catalog.cc:465-509 | with ranges that partition a level, every entry of it is the child of exactly one entry |
| FlatWriter.WriteTree | packages/dashql-core/src/catalog.cc:465-520 | the nested loops write the tree node by node, and the four positions end at the counts of databases, schemas, tables and columns |
| FlatWriter.WriteTables | packages/dashql-core/src/catalog.cc:488-509 | the tables of a schema stand in one block in order, each with its columns in one block |
| CatalogTables.BuildTree | packages/dashql-core/src/catalog.cc:317-446 | the tree holds exactly the referenced databases and schemas and the winning table declarations, ordered by name on every level, and its counters count the referenced databases and schemas, the winning declarations and their columns |
| CatalogTables.PresentIffDeclared | packages/dashql-core/src/catalog.cc:412-416 | a schema has a table of a name exactly if it was declared before |
| CatalogTables.WinnersAppend | packages/dashql-core/src/catalog.cc:401-416 | one more declaration wins exactly if its schema and name were not declared before; earlier winners stay |
| CatalogTables.SchemaPositionUnique | packages/dashql-core/src/catalog.cc:408-410 | a schema id stands at one place of the tree |
| CatalogTreeBuild.RegisterDatabase | packages/dashql-core/src/catalog.cc:361-375 | a database is added once per id, in the order of names |
| CatalogTreeBuild.RegisterSchema | packages/dashql-core/src/catalog.cc:377-394 | a schema is added once per id, under its database |
| CatalogTreeSteps.TableCountsInTree | packages/dashql-core/src/catalog.cc:434-444 | one more table counts one table and its columns |
| CatalogTreeSteps.TableContents | packages/dashql-core/src/catalog.cc:434-444 | one more table adds that table and no other |
| NameTables.Intern | packages/dashql-core/src/catalog.cc:300-310 | a known name keeps its position, a new one is appended; the dictionary stays duplicate-free |
| NameOrders.InsertAscending | packages/dashql-core/src/catalog.cc:355-355 | a name inserted where it belongs keeps an ordered map in ascending order |
| FlatIndex.IndexById | packages/dashql-core/src/catalog.cc:518-523 | the entries of an array sorted by object id, every one listed once |
| FlatIndex.IndexLists | packages/dashql-core/src/catalog.cc:518-523 | an index lists an id with a position exactly if the entry at this position has the id |

## Left out

- FlatBuffer packing, the C API, scanner, parser, analyzer, formatter and completion are not part of this model; names, spans, texts and analysis results are inputs.
- Widths of `uint32_t` and `size_t` indices are not modelled; indices are natural numbers. Signatures keep the 16 and 32 bit truncations of the source.
- Similarity.ComputeSimilarity: the score is a real quotient; rounding of `double` is not modelled.
- AttributeOrder.CollectSortedChildren: sorting is an insertion sort; that the library sort is stable is taken from its name.
- The two parallel vectors of a walk (`pending` and `visited`) are one list of entries, and scratch vectors are locals.
- TreeSizes.ComputeTreeSize, TreeWalks.CheckDeepEquality and the other walks assume well-formed syntax trees: child ranges lie strictly below their parent. SubtreeNodes.SizeCountsNodes also assumes that child ranges are disjoint.
- SnippetExtract.Extract: requires what the source asserts, that the texts of a subtree lie within the text of its root. Parent indices of leaves are not re-patched by the source and nothing is said about them.
- SnippetComparison.Equals: a name index out of range reads as the empty name; the source leaves it undefined.
- Catalogs.Catalog.UpdateScript: the ordered lookups by prefix are modelled by what they decide, whether any key has the schema or database.
- CatalogRuns.UpdateIsDropThenLoad: versions and declarations are not compared; drop-then-load counts two versions and never removes a declaration.
- Catalogs.Catalog.DropScript: declarations that nobody uses any more stay, as in the source.
- Object ids are numbers without structure, and the allocation of ids during analysis is not modelled.
- FlatEntries.FlattenEntries: takes what each entry holds as lists, in the order of the entry's own tables, and requires that no id is given to two names, as ids are handed out by counting, and that the schema of every table is referred to. Each table node has its own list of columns; the source keeps all columns in one buffer, with an iterator to the first one and a count per table.
- FlatIndex.IndexById: the sort is an insertion sort; the library sort leaves the order of equal ids open.
- FlatWriter.WriteTree: arrays grow entry by entry; the source allocates them up front with the sizes that are proved here at the end. Lookups by object id scan the tree instead of two maps.
- ScriptRegistries.Search: the order of hits among scripts is the address order in the source and is left open.
- The grouping of snippets in the registry is not modelled; `DropScript` and `Clear` of the registry are stubs in the source.
- DuckDB itself is a flag per call that says whether it succeeds; query results, timeouts and batching of `read_query_stream` are not modelled: a read is one step with a batch, the end of the stream or a failure as its outcome. Streams and uploads share one table, keyed by their kind, and the connections of all databases one map.
- SessionInterleavings.OneSessionInEveryRun: removals may come at any time, so the runs include more than the calls of the proxy can do.
- StreamRuns.EveryRunConserves: timeouts and cancellations are steps that may come at any time; clocks and the scheduling of readers are not modelled. A cancelled read is counted with its messages as taken but not delivered.
- The HTTP and Docker stream managers are near copies of the gRPC one.
- SourceMaps.BuildSourcemap: path normalisation and prefixes are inputs, source contents are not read. The decoder knows segments of four fields, the only ones written, and has no 32 bit limit.
- Descriptions.AssociateDescriptions: takes resolved root spans and assumes that no comment straddles the begin or the end of a root, and that comments are not empty.
- `FindSymbol`, the fuzzy table resolution and `strip_debug_sections` are not part of this model.
