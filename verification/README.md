# Verification of IREZ's core

IREZ stores the structural graph of LLVM functions in a database and answers bounded graph queries over it. This
project models the parts of it whose behaviour is hard to see by reading one function, and proves what they promise:
the bounded slice, control dependence, the adapter's record list, the replacement of a function's snapshot, the claim
protocol between processes, the artifact store, and three text and number kernels.

`dafny verify dfyconfig.toml` checks everything.

## What is modelled

**Slices** (`Relations`, `Discovery`, `Slice`, `SliceProperties`, `SliceColumns`, `SliceRows`, `SliceRequest`).
`Slice.SliceOn` is the traversal with its queue, its `known` set, its node and depth budgets and its truncation reason.
It is proved equal to a cut of the unbounded breadth-first order, and that cut is then characterised by walks: which
nodes, at which distance, which rows, which frontier, which reason; `SliceColumns` says it all in the columns of the
table, with the order of the visits. The per-node queries are proved to give what loading and sorting all rows would
give. A node budget of zero or less still visits the target. A slice depends on the rows of its own function only, and
not on their runs.

**Control dependence** (`PostDominance`, `ControlDependence`, `DependenceOrder`). Post-dominance is defined by paths to
a virtual exit. The tree is an input; what is asked of it is that every block's parent is its immediate post-dominator.
The walk up the tree is proved to reach its stop node and to emit exactly the control dependences, each once. As in the
program, a block is never reported as depending on itself.

**The adapter** (`Keys`, `Records`, `Adapter`, `AdapterProperties`, `AdapterSites`, `AdapterRecords`,
`AdapterEmission`). `AdapterEmission.FunctionGraph` fills the key tables and appends the records as the program does;
`AdapterSites.ListExact` says what the whole list is from the places of the module alone. Local keys are text made from
decimal numbers; that different things get different keys and different handles is proved from the text.

**Snapshots** (`Snapshot`, `SnapshotProperties`, `SnapshotTheorems`, `SnapshotContent`, `SnapshotRefusals`, `Partition`,
`SnapshotCommit`, `Guards`, `EndToEnd`, `StoredGraph`, `GuardAnswers`, `Namesakes`). `SnapshotCommit.Database.Commit` is
the transaction that validates a record list and replaces a function's rows. A snapshot is whole when its relations,
sources, entities and manifest are those of the list, by one run; a commit makes one whole and leaves all others alone.
`Partition` shows that the transaction acts on the rows of one artifact. `EndToEnd` joins adapter, handles, tables and
guards: the adapter's list always commits, and as long as the snapshot is stored the guards read back from the tables
are the control dependences of the function's graph. `StoredGraph` and `GuardAnswers` say in columns what is stored and
how each thing in a function is answered. `Namesakes` says what is stored when the adapter answers with another
function's graph.

**Claims** (`Leases`, `LeaseProperties`, `LeaseSafety`, `LeaseSnapshots`, `LeaseTheorems`, `LeaseRequests`,
`LeaseAnswers`, `LeaseScenarios`, `LeaseNamesakes`). Every transaction of materialization and cataloguing is one step
over shared tables, with a clock and any number of processes that may die between any two steps. The invariant of the
claims is proved for every step in every store; that of the snapshots for every artifact whose definitions are found by
their own keys, whatever else the store holds. The promises are stated over whole runs. `LeaseRequests` says what each
request does; `LeaseAnswers` is about readers: once a function was ready, its slices and guards are those of its own
graph at every later moment, so that commits between two statements of a reader do no harm.

**The artifact store** (`ArtifactStore`). Storing a file step by step, with an error or death possible at each step,
over an arbitrary hash function. The directory has a flushed and a current state; a loss of power may take any of what
was not flushed.

**Kernels** (`Utf8`, `Utf8Properties`, `JsonText`; `Jsonc`, `JsoncLexical`, `JsoncProperties`, `JsoncCommas`;
`Calendar`, `Stamps`; `Fnv`). The sanitizer against RFC 3629 and over whole JSON values, with the exact condition for
keeping every entry; the JSONC scanner against two separate passes; the date arithmetic against the Gregorian calendar;
and the fingerprint.

## Where the code and its promises part

- A function is selected by key *or* by name (`src/adapter.cpp:245-253`), so an earlier function named `f1` is chosen in
  place of the function whose key is `f1`; `Adapter.SelectExact` says when. The snapshot of `f1` then holds the rows of the
  other function (`Namesakes.NamesakeTakesOver`). The other function suffers too, although its own key finds it: its
  entities are given to `f1`, and the next commit for `f1` deletes its rows while its row and manifest still say that it is
  ready (`LeaseNamesakes.NamesakeLoses`). So the promise that a ready function has its own whole snapshot holds in every
  run if and only if every definition of the module is found by its own key (`LeaseNamesakes.SnapshotsExact`). The promises
  about claims need no such condition.
- The run on a row of `materializations` need not be the run on the function's rows: only the row is fenced by
  `claim_owner`. `LeaseScenarios.PreemptedSnapshot` gives the schedule; the rows of the snapshot and the manifest still
  agree with each other (`LeaseTheorems.ReadyIsSound`).
- The catalog's claim is not fenced: `LeaseScenarios.CatalogUnfenced` gives the schedule, and
  `LeaseScenarios.CatalogEndExact` says exactly when ending a catalog takes the claim from another reader.
- Handles confuse a key without a colon with the key that has one more colon at its end (`Keys.EntityIdCollides`).
  No key that the adapter makes is of that kind.
- The JSONC scanner is not idempotent: a comma survives in front of a comment or of another comma that is dropped.
  `JsoncCommas.IdempotentExact` and `JsoncCommas.OnePassExact` say exactly when one pass is enough.
- Backup stamps sort by time up to a second if and only if that second is not after the year 9999
  (`Stamps.InOrderExactly`, `Stamps.LateSortsEarly`).

## Model

| member | source | states |
|---|---|---|
| `Relations.SortSorted` | src/service.cpp:1263-1265 | the rows of an adjacency query come in the order of the ORDER BY clause |
| `Relations.SortStable` | src/service.cpp:1261-1265 | rows that the order does not tell apart stay in table order |
| `Relations.Adjacent` | src/service.cpp:1263-1281 | the adjacency query of a node finds exactly the rows of the function and kinds that leave the node, each as often as the table has it, in the order of the ORDER BY clause |
| `Relations.AdjacentIsPreloadedWhere` | benchmarks/make_preload_baseline.py:18-36 | a per-node query returns, in the same order, what filtering all preloaded and sorted rows returns |
| `Discovery.OrderShape` | src/service.cpp:1267-1312 | the unbounded order starts at the target, repeats nothing, and has depths that never fall and span at most two layers of the queue |
| `Discovery.OrderCompletes` | src/service.cpp:1275-1314 | the traversal ends: there are never more nodes than the table has handles |
| `Slice.SliceOn` | src/service.cpp:1267-1314 | the loop with queue, known set, budgets and reason computes the cut of the unbounded order: nodes, rows, boundaries and reason |
| `SliceProperties.FullOrderExact` | src/service.cpp:1267-1314 | the unbounded order holds exactly the reachable nodes, each once, at its shortest distance from the target |
| `SliceProperties.BudgetMonotone` | src/service.cpp:1285-1296 | raising either budget only extends the visit order, which is always a prefix of the unbounded order |
| `SliceProperties.SeenBounded` | src/service.cpp:1268-1312 | the target comes first, no node comes twice, and at most max(1, budget) nodes come at all |
| `SliceProperties.SeenInBall` | src/service.cpp:1285-1291 | no visited node is farther away than the depth budget |
| `SliceProperties.ReasonExact` | src/service.cpp:1285-1296 | no reason or the depth reason means that exactly the ball of the depth budget was visited; the node reason means that exactly max(1, budget) nodes were; each reason holds in exactly its case |
| `SliceProperties.InducedAndFrontier` | src/service.cpp:1283-1312 | the selected rows are exactly the eligible rows between visited nodes; the boundaries are exactly the unvisited far ends of eligible rows leaving visited nodes |
| `SliceProperties.SelectedOnce` | src/service.cpp:1298-1308 | each selected row is selected as often as it is in the table |
| `SliceProperties.TruncatedHasReason` | src/service.cpp:1356-1357 | a reason is given exactly when the slice is truncated |
| `SliceProperties.UntruncatedComplete` | src/service.cpp:1275-1314 | an untruncated slice holds the whole reachable set and every eligible row leaving it |
| `SliceProperties.Duality` | src/service.cpp:1253-1284 | an untruncated backward slice of a contains b iff an untruncated forward slice of b contains a |
| `SliceProperties.PreloadEquivalent` | benchmarks/make_preload_baseline.py:12-39 | preloading all rows gives the same nodes, rows, order, boundaries and reason |
| `SliceColumns.AdjacentColumns` | src/service.cpp:1263-1281 | in columns: the query of a node finds the rows of the function and kinds that lead away from it, from src to dst backward and from dst to src forward, each as often as stored, in the order of the ORDER BY clause |
| `SliceColumns.VisitedColumns` | src/service.cpp:1267-1314 | in columns: the visited nodes are those that chains of such rows reach from the target, all of them without a reason, within the depth budget otherwise |
| `SliceColumns.SelectedColumns` | src/service.cpp:1283-1312 | in columns: the selected rows are those of the function and kinds with src and dst visited; the boundaries are where such rows lead that start at a visited node |
| `SliceColumns.SelectedOrder` | src/service.cpp:1281-1308 | the selected rows come node by node, and those of one node in query order |
| `SliceColumns.VisitOrder` | src/service.cpp:1267-1312 | breadth first: every node comes after the one whose row first leads to it, and nodes come in the order of these rows |
| `SliceRows.OtherRowsIgnored` | src/service.cpp:1263-1284 | a slice is the slice of the rows of its own function, whatever else the table holds |
| `SliceRows.RunsIgnored` | src/service.cpp:1263-1314 | whichever runs wrote the rows, a slice visits the same nodes, selects the same rows and stops for the same reason |
| `SliceRequest.ChooseKinds` | src/service.cpp:1202-1244 | aliases are resolved, the first unsupported relation is the error, what belongs to no function is reported as out of scope, and control dependence is dropped and reported when the manifest lacks it |
| `SliceRequest.AskedByEitherName` | src/service.cpp:23-28 | a kind is asked for by its own name or by its short one |
| `SliceRequest.NoFunctionAlone` | src/service.cpp:1216-1231 | the slice of what belongs to no function is that node alone, without rows, boundaries or a reason, under every budget |
| `SliceRequest.FetchEntities` | src/service.cpp:1316-1339 | fetching entities in batches of 500 lists the existing visited entities in visit order |
| `SliceRequest.PresentExact` | src/service.cpp:1331-1339 | each existing entity is listed behind exactly those that come before it |
| `SliceRequest.PreloadedEntities` | benchmarks/make_preload_baseline.py:24-27 | loading all entities of the target's artifact lists the same nodes: no walk along relation rows leaves an artifact |
| `PostDominance.Antisymmetric` | src/adapter.cpp:390-420 | two points that post-dominate each other are the same, given that every block reaches the virtual exit |
| `PostDominance.Chain` | src/adapter.cpp:390-420 | the post-dominators of a point form a chain |
| `PostDominance.StrictOfSuccessor` | src/adapter.cpp:390-420 | a strict post-dominator of a block post-dominates each of its successors |
| `PostDominance.DominatesIsPostDominates` | src/adapter.cpp:398 | the ancestors of a point in the tree are exactly its post-dominators by paths |
| `ControlDependence.StopIsAncestor` | src/adapter.cpp:394-400 | the stop node is the successor itself or one of its ancestors, so the walk always reaches it |
| `ControlDependence.EdgeExact` | src/adapter.cpp:397-417 | the edge emits exactly the blocks other than the branch block that post-dominate the successor and do not strictly post-dominate the branch block |
| `ControlDependence.DependencesExact` | src/adapter.cpp:390-420 | over the whole function every control dependence is emitted, nothing else is, and none is emitted twice |
| `DependenceOrder.DependencesInOrder` | src/adapter.cpp:392-419 | dependences come branch by branch, edge by edge, and along the walk from the successor up |
| `ControlDependence.EmitDependences` | src/adapter.cpp:392-420 | the three nested loops with the runner produce that list in order |
| `ControlDependence.EmitBlock` | src/adapter.cpp:392-419 | the edges out of one block |
| `ControlDependence.EmitArm` | src/adapter.cpp:397-417 | the walk from one successor up to the stop node |
| `Keys.DecimalInjective` | src/adapter.cpp:69 | different ordinals have different decimal texts |
| `Keys.RenderInjective` | src/adapter.cpp:266-331 | functions, globals, arguments, blocks, instructions and constants of a module never share a local key |
| `Keys.ScopeOfRender` | src/adapter.cpp:266-331 | a key tells the function it belongs to; function and global keys belong to none |
| `Keys.EntityIdInjective` | src/service.cpp:112-124 | two handles are equal exactly when the digest prefixes are equal and the keys are equal up to a missing colon |
| `Keys.EntityIdCollides` | src/service.cpp:112-124 | a key without a colon shares its handle with another key |
| `Keys.HandleInjective` | src/service.cpp:112-124 | the handles of rendered keys identify artifact and thing |
| `Keys.FunctionHandleInjective` | src/service.cpp:112-124 | a function handle identifies artifact and function key |
| `Keys.RenderText` | src/adapter.cpp:266-331 | the texts of the local keys |
| `Keys.HandleText` | src/service.cpp:112-124 | the handle of a rendered key is its prefix, the digest prefix and the key |
| `Adapter.SelectExact` | src/adapter.cpp:242-253 | asking by key finds that function unless an earlier function bears the key as its name |
| `Adapter.SelectMistaken` | src/adapter.cpp:242-253 | a concrete module in which the wrong function is found |
| `AdapterProperties.EnsureSound` | src/adapter.cpp:302-331 | a first use declares the global or constant with a key of its own; later uses declare nothing |
| `AdapterProperties.GraphSound` | src/adapter.cpp:259-421 | local keys are pairwise distinct, every relation end is declared or a function of the module, every source row belongs to a declared instruction |
| `AdapterProperties.StructureContains` | src/adapter.cpp:336-341 | every instruction is said to be contained in its block |
| `AdapterProperties.DependenceRecordsExact` | src/adapter.cpp:390-420 | the control-dependence records of the list are exactly the control dependences of the graph |
| `AdapterProperties.DependenceRecordsOnce` | src/adapter.cpp:390-420 | no two control-dependence records name the same block, terminator and ordinal |
| `AdapterSites.ListExact` | src/adapter.cpp:234-383 | the list is the two headers and then one record for every place of the function, once each and in program order: declarations, containment, first uses of globals and constants, operands, references, branches, calls and source locations; constants are numbered by first use |
| `AdapterRecords.GraphExact` | src/adapter.cpp:234-422 | record by record: a header, what a place of the module says, or a control dependence; nothing else, and all of these |
| `AdapterRecords.OperandRelations` | src/adapter.cpp:342-352 | the operand relations lead from each instruction to what each of its operands names, with the operand number and the incoming block of a phi |
| `AdapterRecords.NamesApart` | src/adapter.cpp:302-331 | one operand has one key, and different operands have different keys |
| `AdapterEmission.Emitter.Emit` | src/adapter.cpp:259-331 | one record is appended and nothing else changes |
| `AdapterEmission.Emitter.EnsureOperand` | src/adapter.cpp:302-331 | the key tables and the record list after an operand was looked up |
| `AdapterEmission.Emitter.EmitOperand` | src/adapter.cpp:342-356 | the operand relation, and the reference when the operand is a global |
| `AdapterEmission.Emitter.EmitInstruction` | src/adapter.cpp:339-382 | everything emitted for an instruction, in order |
| `AdapterEmission.Emitter.EmitEntities` | src/adapter.cpp:259-300 | the function, its arguments, and each block followed by its instructions |
| `AdapterEmission.Emitter.EmitBlocks` | src/adapter.cpp:336-383 | the relations of all blocks |
| `AdapterEmission.Emitter.EmitDependences` | src/adapter.cpp:385-420 | one record for each control dependence |
| `AdapterEmission.FunctionGraph` | src/adapter.cpp:234-422 | the whole answer for a key, or the error record when no function has it |
| `SnapshotCommit.Database.Commit` | src/service.cpp:765-939 | the transaction leaves either the replaced tables or the old ones, with counts or the reason |
| `SnapshotCommit.CheckLocals` | src/service.cpp:780-786 | accepts exactly the lists whose local keys are non-empty and pairwise distinct |
| `SnapshotCommit.CheckRelations` | src/service.cpp:787-792 | accepts exactly the lists whose relations have a kind and both ends |
| `SnapshotCommit.InsertEntities` | src/service.cpp:807-830 | the entities table after all upserts, or the violated primary key |
| `SnapshotCommit.ResolveEndpoints` | src/service.cpp:831-841 | which relation ends have a handle |
| `SnapshotCommit.CheckEndpoints` | src/service.cpp:842-847 | accepts exactly the lists all of whose relation ends resolve |
| `SnapshotCommit.CheckSources` | src/service.cpp:848-853 | accepts exactly the lists all of whose source rows name a known key |
| `SnapshotCommit.FindBlock` | src/service.cpp:867-880 | the first block that is said to contain an instruction |
| `SnapshotCommit.PlaceEntities` | src/service.cpp:858-884 | inner entities get their function and block; functions and globals stay in the module |
| `SnapshotProperties.StaleIsOwn` | src/service.cpp:796-801 | in well-scoped tables the three clauses of the DELETE remove exactly the rows of the function itself |
| `SnapshotProperties.ReplacedCommits` | src/service.cpp:773-939 | a good record list always passes the validation and commits |
| `SnapshotProperties.AfterOutside` | src/service.cpp:802-830 | which handles exist after the commit |
| `SnapshotProperties.AfterRow` | src/service.cpp:807-884 | the row of each declared entity after the commit |
| `SnapshotProperties.TablesStayOk` | src/service.cpp:765-939 | the tables stay well scoped: keys tell owners, relations and source rows have both ends |
| `SnapshotTheorems.OtherEntitiesSurvive` | src/service.cpp:802-884 | entities of other functions keep their rows, and none changes its function |
| `SnapshotTheorems.ModuleEntitiesSurvive` | src/service.cpp:802-865 | functions and globals survive and stay in the module; one that is declared again changes its opcode, text and state only, any other not at all |
| `SnapshotTheorems.OtherRelationsSurvive` | src/service.cpp:796-801 | the relation rows of every other function survive in order, also those that point into this function |
| `SnapshotTheorems.OtherSourcesSurvive` | src/service.cpp:801-804 | the source rows of every other function survive in order |
| `SnapshotTheorems.RelationsReplaced` | src/service.cpp:885-903 | the relation rows of the function are exactly the new ones, in order, with the committing run |
| `SnapshotTheorems.ManifestExact` | src/service.cpp:920-930 | the manifest of the function is exactly the contract, by the committing run; other manifests are untouched |
| `SnapshotTheorems.StillGood` | src/service.cpp:765-939 | the same records remain good for the tables they produced |
| `SnapshotTheorems.Twice` | src/service.cpp:765-939 | replacing twice equals replacing once with the second run |
| `SnapshotRefusals.RefusedExactly` | src/service.cpp:780-853 | the transaction is rolled back exactly when a key is empty or declared twice, a relation lacks its kind or an end, two keys have one handle, an end is reached by no key, or a source row names nothing known |
| `SnapshotRefusals.RemovedExactly` | src/service.cpp:794-804 | for any tables: exactly the old rows go that are the function's or touch one of its entities; all others stay as often as they were, and the new rows are added |
| `SnapshotContent.InnerRowExact` | src/service.cpp:807-884 | the row of every inner entity after the commit is the one made from its record, under the function and the block that contains it |
| `SnapshotContent.OwnedExact` | src/service.cpp:802-884 | after the commit the function owns exactly the inner entities of the record list |
| `SnapshotContent.SourcesReplaced` | src/service.cpp:801-919 | the source rows of the function are exactly the new ones, in order, with the committing run |
| `SnapshotContent.CommitCompletes` | src/service.cpp:765-939 | the committed snapshot is whole: relations, sources, entities and manifest are those of the record list, by one run |
| `SnapshotContent.CommitSpares` | src/service.cpp:794-930 | the snapshot of every other function is what it was, in all four tables |
| `Partition.ReplacedPart` | src/service.cpp:765-939 | the transaction on all tables is the transaction on the rows of the artifact, and leaves every other artifact as it is |
| `Partition.SnapshotByPart` | src/service.cpp:112-124 | whether a function has no snapshot or a whole one can be told from the rows of its own artifact |
| `StoredGraph.StoredRelations` | src/service.cpp:885-903 | in columns: the relation rows of a stored function are those of the places of the module and of its control dependences, and no others |
| `StoredGraph.StoredSources` | src/service.cpp:904-919 | in columns: so are its source rows |
| `StoredGraph.StoredInstruction` | src/service.cpp:807-884 | in columns: the row of every instruction, which lies in its own block |
| `StoredGraph.StoredPlain` | src/service.cpp:807-884 | in columns: the rows of arguments and blocks |
| `StoredGraph.StoredOwned` | src/service.cpp:854-884 | and the function owns nothing else but the constants it uses |
| `Guards.GuardsOf` | src/service.cpp:1392-1478 | the first min(budget, n) guards in (terminator, ordinal) order; truncated iff n exceeds the budget; the boundary is the first terminator left out; under a negative budget nothing is shown, and the boundaries are none (-1, a limit of zero) or all terminators (below, no limit) |
| `EndToEnd.AdapterRecordsGood` | src/adapter.cpp:234-422 | the list of every well-formed function of a catalogued module passes all of the validation |
| `EndToEnd.CommitStores` | src/service.cpp:765-939 | in well-scoped tables the list commits, and the whole snapshot of the function is stored |
| `EndToEnd.InstructionAnswered` | src/service.cpp:1398-1414 | while the snapshot is stored an instruction is answered for the block that contains it, with known control dependence |
| `EndToEnd.GuardRowsExact` | src/service.cpp:1450-1457 | the guard rows of a block are exactly its control dependences |
| `EndToEnd.GuardRowOnce` | src/service.cpp:1450-1457 | each control dependence is one row |
| `EndToEnd.GuardsAreControlDependences` | src/service.cpp:1392-1478 | while the snapshot is stored, by whichever run, the guards of an instruction are exactly the control dependences of its block, each once, sorted |
| `GuardAnswers.GuardsTold` | src/service.cpp:1392-1478 | while the snapshot is stored, a block and each of its instructions are answered exactly, under every budget, with the control dependences of the block by the paths of the graph, column by column, each once, by terminator and ordinal |
| `GuardAnswers.LeafAnswered` | src/service.cpp:1397-1409 | arguments and constants have no guards, exactly and under every budget |
| `GuardAnswers.FunctionAnswered` | src/service.cpp:1397-1409 | the function itself is answered for itself, exactly, and with no row of its own |
| `GuardAnswers.GuardColumns` | src/service.cpp:1447-1466 | in columns: the rows of the exact query and of the fallback, each as often as stored and in order |
| `Namesakes.AnyCommit` | src/service.cpp:765-939 | the graph of any function can be committed for any other, whoever owns its entities, and then its rows are exactly those of the graph |
| `Namesakes.NamesakeTakesOver` | src/adapter.cpp:242-253 | asking for a function that an earlier one is named after stores exactly the rows of the other graph under its handle, which are not its own if it has a body |
| `Namesakes.NamesakeIsRobbed` | src/service.cpp:796-801 | and asking once more deletes the rows of the namesake itself, since its entities were given to the other function |
| `LeaseProperties.InitSound` | src/store.cpp:120-165 | an initialized directory satisfies the invariant |
| `LeaseProperties.CheckSound` | src/service.cpp:672-714 | answering from the cache or as a declaration, or going on to claim, keeps the invariant |
| `LeaseProperties.ClaimSound` | src/service.cpp:716-732 | claiming keeps the invariant |
| `LeaseProperties.FailSound` | src/service.cpp:734-762 | recording a failure keeps the invariant |
| `LeaseProperties.CommitTables` | src/service.cpp:765-939 | the adapter output of a working process always commits, whatever the module and whatever the other processes did meanwhile |
| `LeaseProperties.CommitSound` | src/service.cpp:765-939 | committing keeps the invariant, also without holding the claim |
| `LeaseSafety.ResetRowsAt` | src/service.cpp:401-411 | a catalog resets the status and claim of exactly its own functions and keeps their run columns |
| `LeaseSafety.ResetRowTyped` | src/service.cpp:401-411 | after a catalog the row of a declaration says so, and only that |
| `LeaseSafety.CataloguedAt` | src/service.cpp:389-414 | a catalog adds exactly the missing functions of its module and changes only names and states of others |
| `LeaseSafety.CatalogOrder` | src/service.cpp:389-414 | cataloguing keeps handles made from keys and rows within one artifact |
| `LeaseSafety.CatalogTables` | src/service.cpp:389-414 | cataloguing keeps the tables well scoped |
| `LeaseSafety.CatalogClaimSound` | src/service.cpp:284-299 | claiming the catalog keeps the invariant |
| `LeaseSafety.CatalogFailSound` | src/service.cpp:418-427 | failing to catalog keeps the invariant |
| `LeaseSafety.CatalogCommitSound` | src/service.cpp:359-417 | cataloguing keeps the invariant |
| `LeaseSafety.StepSound` | src/service.cpp:248-474 | every transaction of every process keeps the invariant |
| `LeaseSafety.Reached` | src/service.cpp:670-964 | every state of every run satisfies the invariant, whatever the modules |
| `LeaseSnapshots.OwnCommit` | src/service.cpp:765-939 | committing a function's own graph makes its snapshot whole and leaves every other snapshot of the artifact as it was |
| `LeaseSnapshots.CommitHere` | src/service.cpp:765-939 | a commit keeps the snapshots of its own artifact absent or whole, with or without the claim |
| `LeaseSnapshots.CommitThere` | src/service.cpp:765-939 | a commit leaves the snapshots of every other artifact alone, whatever module it belongs to |
| `LeaseSnapshots.CatalogPart` | src/service.cpp:389-414 | a catalog changes no snapshot, of its own artifact or another |
| `LeaseSnapshots.StepArtifact` | src/service.cpp:248-474 | every transaction keeps the snapshots of every faithful artifact absent or whole |
| `LeaseSnapshots.ReachedArtifact` | src/service.cpp:670-964 | so they are in every state of every run |
| `LeaseTheorems.ReadyIsSound` | src/service.cpp:681-689 | a ready function of a faithful artifact is answered from the cache, and its relations, sources, entities and manifest are the adapter output by one successful run |
| `LeaseTheorems.NeverMixed` | src/service.cpp:794-795 | a function of a faithful artifact has no snapshot at all or a whole one by a single successful run, at every moment; whole means relations, sources, entities and manifest |
| `LeaseTheorems.ReadyGuards` | src/service.cpp:1392-1478 | whenever a function of a faithful artifact is ready, the guards of its instructions are exactly their control dependences |
| `LeaseTheorems.ClaimIsMaterializing` | src/service.cpp:720-724 | a row is materializing iff it has a claim owner iff it has a claim time, which is never in the future |
| `LeaseRequests.CheckExact` | src/service.cpp:672-714 | a check changes nothing but the process; it goes on to claim exactly when the function is catalogued, is defined, and is not ready by this build with the six capabilities or is to be refreshed |
| `LeaseRequests.StaysAnswered` | src/service.cpp:681-699 | in every store: a function that can be answered, and that nobody is about to materialize, stays so with its row until a refresh is asked for or its artifact is catalogued, so no check of it leads to a claim |
| `LeaseRequests.ReadyIsAnswerable` | src/service.cpp:681-689 | every ready function of a faithful artifact can be answered |
| `LeaseRequests.ClaimExact` | src/service.cpp:716-732 | a claim takes the row for its owner from now on and opens its run, or only ends the process when the row is held and at most ten minutes old |
| `LeaseRequests.FailExact` | src/service.cpp:734-762 | a failure ends the run and releases the row if it is still held; death changes nothing but the process |
| `LeaseRequests.TenMinutes` | src/service.cpp:720-728 | whoever takes a claimed function does so more than 600 seconds after the claim, unless its owner committed or failed or the artifact was catalogued meanwhile |
| `LeaseRequests.CatalogTenMinutes` | src/service.cpp:286-299 | the same for the claim of a catalog, unless a catalog of the artifact ended meanwhile |
| `LeaseRequests.CatalogExact` | src/service.cpp:359-417 | after a catalog every function of the artifact is unclaimed, marked as declaration or as not materialized, and keeps its run; other rows stay |
| `LeaseRequests.CatalogEntities` | src/service.cpp:389-403 | in columns: the entities of the functions after a catalog; no other entity and no other table changes |
| `LeaseRequests.CatalogFailExact` | src/service.cpp:418-427 | a failed catalog ends its run, marks the artifact and clears its claim, and changes nothing else |
| `LeaseTheorems.MutualExclusion` | src/service.cpp:720-728 | at most one process holds the claim of a function |
| `LeaseTheorems.BusyExact` | src/service.cpp:720-728 | a claim is refused exactly when another is held that is at most ten minutes old |
| `LeaseTheorems.CommitFenced` | src/service.cpp:931-937 | a commit changes the row iff its owner still holds the claim, and the row names the run iff it did; in every store |
| `LeaseTheorems.CommitGraph` | src/service.cpp:765-939 | whatever the module, a commit stores exactly the rows of the graph that the key selects, with the manifest by its run |
| `LeaseTheorems.CommitNamesItsRun` | src/service.cpp:885-937 | after a commit that stores rows, the row and all of them name the same run iff the claim was held |
| `LeaseTheorems.CommitIsWhole` | src/service.cpp:765-939 | in a faithful artifact a commit makes the snapshot whole by its own run, also without the claim |
| `LeaseTheorems.FailFenced` | src/service.cpp:940-950 | a failure changes the row only if its owner still holds the claim, and never the tables |
| `LeaseTheorems.LostForever` | src/service.cpp:720-724 | an owner without a claim never gets one again |
| `LeaseTheorems.Fenced` | src/service.cpp:931-950 | a preempted process never again changes a row, neither by committing nor by failing |
| `LeaseAnswers.WholeStays` | src/service.cpp:794-930 | a function of a faithful artifact that has a snapshot has a whole one at every later moment |
| `LeaseAnswers.LaterAnswers` | src/service.cpp:1267-1478 | once a function of a faithful artifact was ready, every slice is that of its own graph, and every block and instruction is answered with its control dependences, at every later moment |
| `LeaseAnswers.AnswerByGraph` | src/service.cpp:1267-1314 | the runs aside, every such slice is told by the module alone |
| `LeaseAnswers.OneAnswer` | src/service.cpp:1267-1314 | two slices at any two later moments are the same but for the runs on their rows, however many commits lie between them |
| `LeaseScenarios.AlwaysRecovers` | src/service.cpp:716-939 | from every reachable state a process that waits for the expiry can claim a function and make it ready |
| `LeaseScenarios.PreemptedSnapshot` | src/service.cpp:931-937 | from every reachable state a preempted process can replace the snapshot, so that row and rows name different runs |
| `LeaseScenarios.CatalogUnfenced` | src/service.cpp:307-330 | from every reachable state a preempted reader can clear the claim of its successor |
| `LeaseScenarios.CatalogEndExact` | src/service.cpp:307-427 | ending a catalog, well or badly, leaves every other claim in place iff no other reader holds that of the artifact, and does what a fenced UPDATE would do iff the claim is free or its own |
| `LeaseNamesakes.UnfaithfulRun` | src/adapter.cpp:242-253 | every module that is not faithful has a run after which a definition is ready and cached without its own snapshot |
| `LeaseNamesakes.SnapshotsExact` | src/adapter.cpp:242-253 | every ready function of an artifact has its own whole snapshot in every run iff every definition of the module is found by its own key |
| `LeaseNamesakes.NamesakeLoses` | src/service.cpp:796-801 | from every reachable state, asking twice for a function that finds a namesake leaves the namesake ready and cached without its own rows |
| `ArtifactStore.Store.IngestFile` | src/store.cpp:172-269 | one call: deduplicated, refused, interrupted, or stored and entered |
| `ArtifactStore.Store.Write` | src/store.cpp:223-257 | from the temporary file to the flushed directory, with an error or death at any step |
| `ArtifactStore.Store.Stage` | src/store.cpp:226-239 | the temporary file is written and its content flushed |
| `ArtifactStore.Store.Rename` | src/store.cpp:240-253 | the file gets its name; one that is there must be readable and hold the same content |
| `ArtifactStore.DestinationsDiffer` | src/store.cpp:217-225 | published names identify digest and suffix and are never temporary names |
| `ArtifactStore.IngestKeeps` | src/store.cpp:193-268 | however a call ends, every committed row has a flushed file of its digest in the flushed directory, no row or its file changes, and at most one row is added |
| `ArtifactStore.PowerLossKeeps` | src/store.cpp:31-51 | when any part of what was not flushed is lost, every committed row keeps its file, to the byte |
| `ArtifactStore.PublishedMayVanish` | src/store.cpp:254-257 | a file that was renamed may be gone after a loss of power unless the directory was flushed |
| `ArtifactStore.OutcomeExact` | src/store.cpp:193-268 | deduplicated iff the digest has a row; refused iff another digest has its prefix; created iff nothing fails and the destination is free or holds the content; the backing file is never missing or wrong; a new row has these columns |
| `ArtifactStore.LeftBehind` | src/store.cpp:223-253 | a temporary file is left exactly when the writer died before renaming it or an error is reported that leaves it, and holds the content up to some byte |
| `ArtifactStore.DamageReported` | src/store.cpp:193-215 | in any store: content whose digest has a row is not stored again; a missing or damaged file is reported |
| `ArtifactStore.RetrySucceeds` | src/store.cpp:193-268 | after any failure, death or loss of power the same content can be ingested iff its prefix and destination are not taken by other content, and then has exactly one row |
| `ArtifactStore.HistorySound` | src/store.cpp:172-269 | all of this after any history of attempts and losses of power |
| `ArtifactStore.CommittedForever` | src/store.cpp:172-269 | once committed, an artifact keeps its row and every byte of its file through any further history |
| `ArtifactStore.HandleNamesOne` | src/service.cpp:112-124 | among all artifacts of a store a handle names at most one thing |
| `Utf8.RangesExact` | src/envelope.cpp:73-103 | the tests on bits and code points accept exactly the byte ranges of section 4 of RFC 3629 |
| `Utf8.ReadChar` | src/envelope.cpp:73-103 | the character that starts at a position, if one does |
| `Utf8.SanitizeText` | src/envelope.cpp:68-119 | the loop keeps characters, replaces bytes that start none, and raises the flag |
| `Utf8Properties.SanitizedWellFormed` | src/envelope.cpp:68-119 | the output is always well-formed |
| `Utf8Properties.Distributes` | src/envelope.cpp:68-119 | a well-formed front is kept and does not influence what follows |
| `Utf8Properties.ByteReplaced` | src/envelope.cpp:108-113 | a byte at which no character starts is replaced alone, and what surrounds it is read as if by itself |
| `Utf8Properties.KeptExactly` | src/envelope.cpp:68-119 | exactly the well-formed texts are returned unchanged |
| `Utf8Properties.Idempotent` | src/envelope.cpp:68-119 | sanitizing twice is sanitizing once |
| `Utf8Properties.SanitizedSame` | src/envelope.cpp:68-119 | two texts become the same iff they are alike: the same character by character when a byte that starts none is read as U+FFFD |
| `Utf8Properties.AtMostThreefold` | src/envelope.cpp:68-119 | the output is at most three times as long as the input |
| `Utf8Properties.LossyExact` | src/envelope.cpp:104-116 | the flag is raised iff the output contains U+FFFD |
| `Utf8Properties.UnflaggedExactly` | src/envelope.cpp:104-116 | unflagged input is well-formed and without U+FFFD, and conversely |
| `Utf8Properties.EncodeIsChar` | src/envelope.cpp:76-103 | decoding undoes the encoding of section 3 of RFC 3629 |
| `Utf8Properties.CharIsEncoded` | src/envelope.cpp:76-103 | encoding undoes decoding |
| `Utf8Properties.WellFormedExactly` | src/envelope.cpp:68-119 | the well-formed texts are the encodings of sequences of scalar values |
| `Utf8Properties.EncodeAllInjective` | src/envelope.cpp:68-119 | of a single such sequence each |
| `JsonText.CleanWellFormed` | src/envelope.cpp:120-137 | after the recursion all texts and keys are well-formed |
| `JsonText.CleanKeepsExactly` | src/envelope.cpp:120-137 | exactly the well-formed trees are returned unchanged |
| `JsonText.CleanIdempotent` | src/envelope.cpp:120-137 | what is clean stays as it is |
| `JsonText.LossyTreeExact` | src/envelope.cpp:104-138 | the flag left by the recursion is raised iff the output contains U+FFFD |
| `JsonText.CleanDistinct` | src/envelope.cpp:120-126 | no object of the clean tree has two entries of one key |
| `JsonText.LastWins` | src/envelope.cpp:122-126 | the entries of a clean object are exactly the sanitized ones of those entries after which no key alike comes |
| `JsonText.NothingLostExactly` | src/envelope.cpp:120-137 | every entry is in its place, sanitized, iff no two keys of an object are alike |
| `JsonText.WellFormedKeysStay` | src/envelope.cpp:120-137 | a value whose keys are well-formed loses no entry, whatever its texts |
| `JsonText.NoticeTexts` | src/envelope.cpp:138-152 | the mark and the diagnostic read as the source spells them |
| `JsonText.LossIsReported` | src/envelope.cpp:138-152 | a tree whose clean text is without U+FFFD is written unchanged; an object with it is marked, whatever it said before, gains one diagnostic, and is otherwise the clean one |
| `JsonText.WrittenWellFormed` | src/envelope.cpp:138-157 | whatever is written is well-formed |
| `Jsonc.SkipLine` | mcp/src/install.rs:408-412 | the end of a line comment |
| `Jsonc.SkipBlock` | mcp/src/install.rs:413-422 | the end of a block comment, and the line feeds that are kept |
| `Jsonc.CloserFollows` | mcp/src/install.rs:423-429 | whether only whitespace comes before a closer |
| `Jsonc.JsoncToJson` | mcp/src/install.rs:382-443 | the scanner with its index, its string flag and its output |
| `JsoncLexical.LineEnds` | mcp/src/install.rs:408-412 | a line ends at its first line feed or with the input |
| `JsoncLexical.BlockEnds` | mcp/src/install.rs:413-422 | a block comment ends right after the first star with a slash or with the input |
| `JsoncLexical.LiteralEnds` | mcp/src/install.rs:389-400 | a literal ends right after the first quote with an even number of backslashes before it or with the input |
| `JsoncLexical.LineCommentGoes` | mcp/src/install.rs:408-412 | whatever a line comment says it goes, and its line feed stays |
| `JsoncLexical.LastLineCommentGoes` | mcp/src/install.rs:408-412 | a line comment at the end of the input goes, whatever it says |
| `JsoncLexical.BlockCommentGoes` | mcp/src/install.rs:413-422 | whatever a block comment says it goes, and its line feeds stay |
| `JsoncLexical.LiteralStays` | mcp/src/install.rs:389-407 | a literal is kept to the letter |
| `JsoncLexical.CommaExact` | mcp/src/install.rs:423-435 | a comma goes exactly when only whitespace comes between it and a closer |
| `JsoncProperties.JsonIsSubsequence` | mcp/src/install.rs:382-443 | the output is a subsequence of the input |
| `JsoncProperties.LiteralsVerbatim` | mcp/src/install.rs:389-407 | all string literals are kept verbatim, none appears, and the output has no comment |
| `JsoncCommas.SecondPass` | mcp/src/install.rs:382-443 | a second pass can only drop commas |
| `JsoncCommas.OnePassExact` | mcp/src/install.rs:423-435 | the single pass equals stripping comments and then trailing commas iff no comment stands between a comma and the closer after it |
| `JsoncCommas.IdempotentExact` | mcp/src/install.rs:423-435 | a second pass changes nothing iff no comma is left whose closer follows once comments and a dropped comma are gone |
| `JsoncCommas.NotIdempotent` | mcp/src/install.rs:423-435 | two inputs that need a second pass |
| `JsoncCommas.LineFeedsExact` | mcp/src/install.rs:413-422 | all line feeds are kept except one at the very end of an unended block comment |
| `Calendar.YearOfEraExact` | mcp/src/install.rs:490-491 | the corrections for leap days find the year of the era |
| `Calendar.CivilExact` | mcp/src/install.rs:486-497 | the computed date is a Gregorian date whose day number is the given day |
| `Calendar.DateOfDay` | mcp/src/install.rs:486-497 | every date since 1970 is computed from exactly one day |
| `Calendar.CivilGrows` | mcp/src/install.rs:486-497 | later days have later dates |
| `Stamps.OrderExact` | mcp/src/install.rs:480-504 | until the year 9999 the text order of stamps is exactly the order of time, and stamps are distinct |
| `Stamps.InOrderExactly` | mcp/src/install.rs:480-504 | all stamps up to a second sort by time iff that second is not after the year 9999 |
| `Stamps.StampReads` | mcp/src/install.rs:480-504 | the digits of a stamp, read from the back, are the time and the Gregorian date of exactly its second |
| `Stamps.StampsInOrder` | mcp/src/install.rs:498-503 | stamps whose years have equally many digits sort in time order |
| `Stamps.LateSortsEarly` | mcp/src/install.rs:498-503 | every stamp of the years 10000 to 10999 sorts before every stamp until 9999 |
| `Stamps.OrderBreaks` | mcp/src/install.rs:498-503 | two neighbouring seconds whose stamps sort the wrong way round |
| `Fnv.Fnv1a64` | mcp/src/install.rs:544-551 | the loop with the rolling hash and the sixteen hexadecimal digits |
| `Fnv.KnownFingerprints` | mcp/src/install.rs:544-551 | the published fingerprints of no byte and of the letter a |
| `Fnv.MixIsBijection` | mcp/src/install.rs:546-549 | every step is a bijection of the 64-bit state |
| `Fnv.MixTellsBytes` | mcp/src/install.rs:546-549 | a step is injective in the byte |
| `Fnv.MixedInjective` | mcp/src/install.rs:546-549 | equal bytes keep different states apart |
| `Fnv.OneByteSeen` | mcp/src/install.rs:544-551 | inputs that differ in exactly one byte have different fingerprints |
| `Fnv.ChangeSeen` | mcp/src/install.rs:544-551 | the same by position |

## Left out

- SQL text, locking and busy timeouts: tables are values or class fields, and each transaction is one step.
- LLVM parsing, printing and the construction of the post-dominator tree: the module, its texts and the tree are inputs;
  the tree is assumed to give immediate post-dominators once every block reaches the virtual exit.
- SHA-256, UUID generation and the wall clock: an arbitrary hash, fresh owners and runs, and a clock that only moves forward.
- Names, types, exact text, attributes and modality of entities and relations are carried as single text or map columns; the
  type and attribute columns of entities are folded into `text`.
- The artifact of a relation row, row numbers, timestamps and error texts are not columns of the model.
- `branch_predicate` (`src/service.cpp:1419-1441`): it only adds a field to a guard that is already decided.
- The sorted list of boundaries without repetitions (`src/service.cpp:1350-1353`): the boundaries are stated before sorting.
- `run_trace`, `context`, `show`, `uses`, `source`, `status` and `Envelope::build`: mostly copying of fields.
- `ensure_materialized` (`src/service.cpp:214-238`): the test of `materialize` is modelled, its earlier copy is not.
- `index == "full"` and the skipping of a current catalog: a process may catalog and materialize at any time, in any order.
- Adapter versions: a row is stamped by this build or not; databases written by other builds are not modelled.
- Replacement of a backing file behind the store's back: the error paths are modelled, their cause is not.
- JSON objects are lists of entries with distinct keys, in the order in which the program goes through them. Malformed keys
  are modelled although the JSON library does not make them; among well-formed keys nothing is lost (`JsonText.WellFormedKeysStay`).
- SQL leaves open the order of rows that tie in an ORDER BY; the model keeps table order.
- The era of days before 1970 (`mcp/src/install.rs:489`): the number of seconds is never negative.
- Command-line parsing, server processes, host registration and packaging scripts.
- Windows: the directory is not flushed there (`src/store.cpp:254-257`), so the store is modelled for the other systems.
- Two names of one file after a loss of power: they are separate files in the model, and names with a new UUID are not reused.
- GuardAnswers.FunctionAnswered: asks for the function's catalogued row, and does not exclude rows of other functions at its handle.
- LeaseTheorems.ReadyIsSound: does not say that the row names the run of the snapshot, because a preempted owner can commit;
  and it speaks of artifacts all of whose definitions are found by their keys, because of others it is false
  (`LeaseNamesakes.SnapshotsExact`).
- LeaseTheorems.NeverMixed: of those artifacts only, for the same reason.
