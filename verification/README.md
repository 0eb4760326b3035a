# Verified models of bb-portal

A Dafny 4.11 project that models five parts of bb-portal and proves what they promise. Run
`dafny verify dfyconfig.toml` in this directory.

- **Eager loading in the ent query builders** (`Scanning`, `ActionScan`, `SummaryScan`, `Pages`,
  `EdgeQueries`, `EagerLoading`, `ChildPages`, `SummaryLoading`, and `EdgeUpdates` for the update
  side). A query with `With...` options is answered by one batched query per edge; the neighbours
  are bucketed by foreign key and written back into the rows. The main results say exactly when
  every row ends with the edges that its own queries would give, a NULL key having none: always,
  unless a `With...` option sets a limit or an offset that cuts the batched rows, or a NULL key
  meets a row with id 0. They say that every row carries exactly the columns that were asked
  for, that the edges do not depend on them,
  that no "unexpected foreign-key" error can be reached, and that one-to-many loading partitions
  the neighbours. The rows, the builders with their growing filters, and the loops over buckets are
  imperative, as in the source.
- **The route manifest generator** (`OrderedSets`, `ImportGraph`, `RoutePaths`, `RouteManifest`).
  The depth-first walk over a possibly cyclic chunk graph visits exactly what is reachable, each
  chunk once; a path's asset set is the union of the closures of the main entry, the root, the
  parent layouts that exist and the files themselves, over the route files that share the path; the
  order of the manifest's keys does not matter.
- **Nested transactions on savepoints** (`Savepoints`). The SQL statements follow sections 16.4,
  16.5 and 16.7 of ISO/IEC 9075-2:2003. Any tree of writes and nested blocks gives the data of
  true nested transactions; over any run, a handle works exactly when the history says so.
- **Bulk creation and seeding** (`BulkCreate`, `Batcher`, `SeedProgram`, `InstanceSeeder`,
  `SeedRuns`, `SeedTimes`). From its builders, the hooks and the database one can tell whether a
  bulk save inserts, succeeds and marks its mutations; the batcher conserves its items; one
  goroutine's bulk saves are exactly the reference program, whatever ids the database hands out and
  whichever save fails; and over every interleaving of the goroutines, invocation targets join rows
  of one instance, each pair exactly once, and an instance's rows depend on the schedule only up to
  a renaming of ids.
- **The visibility policies** (`Visibility`, `SeededVisibility`). Every path predicate is a set
  specification; the policies agree with each other; on every database that seeding reaches, a
  test summary is visible to exactly the requests that see its invocation.

What the rest of the system does is taken as a contract: a query returns, in its order, the rows
that match its predicates, without the first `offset` and at most `limit` of them, where 0, the zero
value of both fields, means none; a batch create inserts every row or none and fills in ids; ids
handed out to concurrent goroutines are new; an update clears edges before it adds, and adding to a
unique edge replaces its neighbour; `uuid.New` never repeats; a failed SQL statement has no effect.
Random choices, clock readings, the authoriser's answers, whether a save fails and which hooks are
installed are parameters that range over everything.

Some promises one would expect are not kept by the code; the model keeps the code, says exactly when
the promise holds, and shows an input that breaks it:

- A trailing NULL resets a scanned `id` to 0, while every other field keeps its last value
  (`ActionScan.IdLastNonNullExact`, `IdLost`).
- A limit or an offset set in a `With...` option applies to the batched query, so rows lose edges
  that they have (`EagerLoading.EagerIsNaive`, `EdgeQueries.LimitLosesEdge`), and parents lose
  children (`SummaryLoading.SharesExact`, `ChildPages.LimitLosesChild`).
- A NULL stdout or stderr key is scanned and loaded as key 0, so the row shows the neighbour with id
  0 (`EagerLoading.NullKeyLoads`). Without offsets and limits the loads are right exactly if no row
  has a NULL key or no neighbour has id 0 (`UnpagedIsNaive`); with them there is one more case, a
  limit that cuts off just that neighbour (`NullKeyExact`). The nullable metrics key has no such case.
- Running a query builder twice keeps the key filters of the first run (`EagerLoading.ReuseExact`,
  `ReuseLoses`; `SummaryLoading.ChildrenReuseExact`, `MetricsReuseExact`, `ReuseLosesChildren`).
- A hook that fails after its successor succeeded leaves some mutations done and others not,
  although the rows are inserted (`BulkCreate.LateFailureExact`, `LateFailureHappens`).
- `Clear` on an edge does not cancel additions recorded before it (`EdgeUpdates.BatchIsInOrder`,
  `ClearedTooEarly`).
- A route id that starts with a separator loses the separator in its layout chain, so the route's
  own chunk is not found (`RoutePaths.LayoutChainExact`, `LeadingSeparator`;
  `RouteManifest.OwnChunkIncluded`, `OwnChunkMissed`). The comment in the source shows only the
  ordinary case.
- `$x` and `{x}` are served under the same path (`RoutePaths.MergeExactly`, `TwoSpellings`).
- A zero or negative time span puts seed times outside the interval (`SeedTimes.InSpanExact`,
  `EmptyAndNegativeSpan`).
- A test summary's policy never looks at its invocation; the two agree exactly when target and
  invocation have one instance name (`Visibility.SummaryAsInvocationExact`, `SummaryApart`).
- Under a bypass a user is visible although no invocation of theirs is, exactly if they have none
  (`Visibility.UserAgrees`, `LoneUser`).

## Model

| member | source | states |
|---|---|---|
| Savepoints.Transaction.Exec | internal/database/savepoint_driver.go:14-16 | a statement on the transaction is the reference step, or fails without effect once it is over |
| Savepoints.Transaction.Tx | internal/database/savepoint_driver.go:26-37 | pushes one savepoint with the current data and hands out its handle, or fails without a handle |
| Savepoints.Transaction.OuterCommitTx | internal/database/transaction.go:56-58 | the data becomes committed and the transaction ends |
| Savepoints.Transaction.OuterRollbackTx | internal/database/transaction.go:61-63 | the data goes back to the committed data and the transaction ends |
| Savepoints.SavepointTx.CommitTx | internal/database/savepoint_driver.go:64-66 | releases its savepoint and all younger ones, or fails without effect |
| Savepoints.SavepointTx.RollbackTx | internal/database/savepoint_driver.go:70-72 | restores the data of its savepoint, keeps that savepoint and drops the younger ones, or fails without effect |
| Savepoints.FailsWithoutEffect | internal/database/savepoint_driver.go:26-72 | a call that does not work leaves the connection as it was; it reports a transaction that is over, or else an unknown savepoint |
| Savepoints.HandleOutcome | internal/database/savepoint_driver.go:26-72 | over every run, handles used in any order: live ids are distinct, and Commit and Rollback work iff the transaction is open and, by the history, the handle was opened and neither released nor passed by an older release or rollback |
| Savepoints.RollbackRestores | internal/database/savepoint_driver.go:68-72 | rolling back a live handle brings back the data its Tx call saw and leaves the handle usable |
| Savepoints.OuterAtomicity | internal/database/transaction.go:56-63 | before the outer commit the committed data is the starting data, whatever the handles did; the outer rollback leaves it there, the outer commit makes it the current data |
| Savepoints.SavepointsRefineNesting | internal/database/savepoint_driver.go:26-72 | any tree of writes and nested blocks gives the data of true nested transactions, every call works, and only savepoints of this tree's own rolled-back blocks are left on top of an untouched stack |
| Savepoints.WholeTransaction | internal/database/transaction.go:32-63 | after the outer commit the database holds what nested transactions give, after the outer rollback the starting data |
| OrderedSets.DedupOrder | frontend/routeMapper.ts:63-65 | adding in order keeps each member once, by first occurrence |
| OrderedSets.AddAllOrder | frontend/routeMapper.ts:171-177 | members added to a set come after those that are there, in the order of their first occurrence |
| ImportGraph.ImportWalk.VisitRoute | frontend/routeMapper.ts:67-86 | the imperative walk over shared sets ends on every graph and is the reference walk |
| ImportGraph.FetchImportRoutes | frontend/routeMapper.ts:62-94 | the whole function returns the reference walk's files and css |
| ImportGraph.VisitReaches | frontend/routeMapper.ts:67-86 | started in any state, a walk visits exactly the chunks reachable without passing visited ones |
| ImportGraph.FetchExact | frontend/routeMapper.ts:62-94 | exactly the reachable chunks, each once; the file a chunk names comes in the order of the first visited chunk that names it, an empty name never; a style sheet comes by its first chunk and inside that by the chunk's list; each once |
| ImportGraph.VisitOrderStep | frontend/routeMapper.ts:83-85 | the visit order is depth first: import by import, what is reachable around everything before |
| ImportGraph.FetchMembers | frontend/routeMapper.ts:62-94 | a file name is returned iff it is not empty and some reachable chunk names it, a style sheet iff some reachable chunk lists it |
| RoutePaths.StrippedRouteFile | frontend/routeMapper.ts:22-28 | the id of a split route file src/routes/....tsx?tsr-split=component is its dotted path below src/routes iff that src/routes/ is the last one on the first line of the name |
| RoutePaths.StrippedPlainFile | frontend/routeMapper.ts:22-28 | and so for a key without the split suffix, such as src/routes/__root.tsx |
| RoutePaths.JoinSplit | frontend/routeMapper.ts:36-58 | joining the segments of a string gives the string back |
| RoutePaths.SplitJoin | frontend/routeMapper.ts:36-58 | splitting a join of separator-free segments gives the segments back |
| RoutePaths.GeneratePath | frontend/routeMapper.ts:31-59 | the loop over the segments computes the served path |
| RoutePaths.MergeExactly | frontend/routeMapper.ts:31-59 | two files share a path iff their kept segments agree up to the two spellings of a parameter, or nothing is left of either; for all files |
| RoutePaths.TwoSpellings | frontend/routeMapper.ts:31-59 | the route files src/routes/$x and src/routes/{x} have different segments and one path |
| RoutePaths.MergeWithoutBraces | frontend/routeMapper.ts:31-59 | for non-empty segments without braces: iff the kept segments are equal |
| RoutePaths.ServedPath | frontend/routeMapper.ts:22-59 | under that condition every route file is served under its name below src/routes/, split at slashes and dots: "index" segments and a final "html" dropped, parameters in braces |
| RoutePaths.ServedSegments | frontend/routeMapper.ts:22-59 | without dots inside its components these are the segments |
| RoutePaths.ServedRest | frontend/routeMapper.ts:31-59 | a file name.$ below src/routes/ is served under /name/{rest...} |
| RoutePaths.ServedNamed | frontend/routeMapper.ts:31-59 | a file name.$parameter is served under /name/{parameter} |
| RoutePaths.ServedIndex | frontend/routeMapper.ts:31-59 | a file name.index is served under /name |
| RoutePaths.ServedRoot | frontend/routeMapper.ts:31-59 | the file index is served under / |
| RoutePaths.LayoutChain | frontend/routeMapper.ts:109-123 | the loop computes the chain of layout ids |
| RoutePaths.LayoutChainExact | frontend/routeMapper.ts:115-123 | the i-th id is the join of the first i segments for every i iff the first segment is not empty or the only one |
| RoutePaths.OwnIdInChain | frontend/routeMapper.ts:110-123 | the route's own id is in its chain, and last, under exactly that condition |
| RoutePaths.ChainMembers | frontend/routeMapper.ts:109-123 | an id is in a route's chain iff it is the root or the join of a prefix of its segments, leading blanks dropped |
| RoutePaths.LeadingSeparator | frontend/routeMapper.ts:115-123 | the id ".a" is not in its own chain |
| RouteManifest.GenerateRouteKeys | frontend/routeMapper.ts:96-139 | the assets are those of the closures of the first manifest key of each layout id that has one |
| RouteManifest.AddRoute | frontend/routeMapper.ts:171-177 | the four loops add main and route assets to an entry's sets |
| RouteManifest.MergeRoutes | frontend/routeMapper.ts:154-178 | the loop over the route files leaves one entry per path with all its files' assets |
| RouteManifest.GenerateRouteManifest | frontend/routeMapper.ts:141-189 | one entry per path, in first-file order, with the merged assets |
| RouteManifest.IsRouteFileExact | frontend/routeMapper.ts:142-145 | a route file has src/routes/ somewhere in its name and ends with .tsx?tsr-split=component, both exactly |
| RouteManifest.RootExact | frontend/routeMapper.ts:96-139 | the walked chunks of a route file are exactly the first entry chunk and the first keys that strip to "__root" or to the join of a prefix of its id |
| RouteManifest.EntryAssets | frontend/routeMapper.ts:141-189 | an entry's asset set is exactly the closures of those chunks - main, root, the parent layouts that exist, the file itself - over all route files sharing the path, without duplicates |
| RouteManifest.PathsExact | frontend/routeMapper.ts:154-186 | emitted paths are pairwise distinct and exactly the paths of the route files |
| RouteManifest.PathsInOrder | frontend/routeMapper.ts:154-186 | the entries come in the order of the first route file served under each path |
| RouteManifest.MainFirst | frontend/routeMapper.ts:147-177 | in every entry the assets of the main entry come first |
| RouteManifest.LayoutsInOrder | frontend/routeMapper.ts:124-138 | the keys a route file pulls in come in the order of the layout ids they strip to, from the root inwards |
| RouteManifest.OwnChunkIncluded | frontend/routeMapper.ts:110-136 | a route's own chunk is among its sources iff its id does not start with a separator and no earlier key strips to the same id |
| RouteManifest.OwnChunkMissed | frontend/routeMapper.ts:110-136 | a manifest whose only route file is not among its own sources |
| RouteManifest.FindKeyFirst | frontend/routeMapper.ts:127-129 | find returns a key iff no earlier key strips to the same id |
| RouteManifest.KeyOrderIndependent | frontend/routeMapper.ts:127-178 | permuting the keys permutes the paths and keeps every asset set, given one entry chunk and one key per layout id |
| ActionScan.ScanValues | ent/gen/ent/action.go:118-137 | one slot of the column's kind per column |
| ActionScan.AcceptsScanned | ent/gen/ent/action.go:118-238 | what scanValues allocated never meets a type error, duplicates and unknown names included; the only failure is an undecodable command line |
| ActionScan.FirstError | ent/gen/ent/action.go:141-238 | whatever the driver delivers: the first value of the wrong kind, or command line that cannot be decoded, decides the error |
| ActionScan.AssignExact | ent/gen/ent/action.go:141-145 | a mismatch is reported iff there are fewer values than columns; all is assigned iff there are not and every value can be |
| ActionScan.LastValue | ent/gen/ent/action.go:146-235 | each key, string, time and flag field ends with its last non-null value, or unchanged; the exit code with that value cut to 32 bits |
| ActionScan.ExitCodeExact | ent/gen/ent/action.go:183-188 | the exit code is the one number in [-2^31, 2^31) that is congruent modulo 2^32 to its last non-null value - that value itself if it fits - or unchanged |
| ActionScan.LastCommand | ent/gen/ent/action.go:189-196 | the command line is the decoding of its last non-empty bytes, or unchanged |
| ActionScan.LastId | ent/gen/ent/action.go:147-152 | the id is its last value, NULL read as 0 |
| ActionScan.IdLastNonNullExact | ent/gen/ent/action.go:147-152 | the id is its last non-null value iff its last occurrence is not null or that value is 0 anyway |
| ActionScan.IdLost | ent/gen/ent/action.go:147-152 | the id 5 followed by a NULL ends as 0 |
| ActionScan.UnknownColumns | ent/gen/ent/action.go:233-234 | an unknown column ends in selectValues with its last value |
| ActionScan.KnownColumns | ent/gen/ent/action.go:146-235 | a known column never reaches selectValues |
| ActionScan.OnlyUnknownColumns | ent/gen/ent/action.go:233-234 | unknown columns change nothing else and never fail |
| EagerLoading.Action.AssignValues | ent/gen/ent/action.go:141-238 | writes field by field what the fold over the columns gives, with its error |
| EagerLoading.SpecColumnsExact | ent/gen/ent/action_query.go:679-699 | a narrowed query selects exactly the id, the chosen fields and the foreign keys of the requested edges |
| EagerLoading.ScannedFk | ent/gen/ent/action_query.go:489-497 | whatever fields are selected, a scanned row carries the key of every requested edge |
| EagerLoading.RowCarried | ent/gen/ent/action_query.go:489-497 | a scanned row carries exactly what was asked for: without a selection every column of the entity, else the id, the chosen fields and the keys of the requested edges; field by field the row's value, NULL as the zero value, the command line decoded, and every other field untouched |
| EagerLoading.ScansExact | ent/gen/ent/action_query.go:489-506 | a valid row scans iff its command line was not asked for, is missing, or can be decoded |
| EagerLoading.BucketByKey | ent/gen/ent/action_query.go:543-551 | every node is in the bucket of its key and nowhere else; the ids are the keys |
| EagerLoading.AssignEdge | ent/gen/ent/action_query.go:565-567 | every node of a bucket gets the neighbour |
| EagerLoading.HandOut | ent/gen/ent/action_query.go:560-568 | one neighbour changes exactly the nodes with its key; the error is unreachable |
| EagerLoading.Distribute | ent/gen/ent/action_query.go:560-568 | each node ends with the last neighbour whose id is its key, and no unexpected key is reported |
| EdgeQueries.BatchExact | ent/gen/ent/action_query.go:555-556 | one batched query gives every key what its own query gives, offset and limit included, iff the matching rows fit the page |
| EdgeQueries.NullableExact | ent/gen/ent/action_query.go:604-657 | with keys where NULL reads as 0, one batched query gives every row what its nullable key asks for iff the matching rows fit the page and no NULL key meets a row with id 0, or the page cuts off just that row and no key is 0 |
| EdgeQueries.LimitHidesZero | ent/gen/ent/file_query.go:1009-1011 | the keys 1 and NULL, the rows 1 and 0 and a limit of one: the page is too small and the answers are right |
| EdgeQueries.LimitLosesEdge | ent/gen/ent/file_query.go:1009-1011 | two keys and a limit of one: the second key's neighbour is lost |
| EdgeQueries.AgainExact | ent/gen/ent/action_query.go:555-556 | with the id filter of an earlier run still in place, the keys get what a fresh builder gives iff that run asked for every row up to the end of the page |
| Pages.PageExact | ent/gen/ent/action_query.go:707-712 | a page is the stretch of rows from the offset on, up to the end or until it holds limit rows |
| Pages.FilterExact | ent/gen/ent/action_query.go:707-712 | a filter in front of offset and limit takes no row off the page iff it keeps every row up to its end |
| EagerLoading.LoadEdge | ent/gen/ent/action_query.go:542-657 | a load function never fails, gives every node what the batched query - filters, offset, limit - has for its key, and leaves one more id filter in the builder |
| EagerLoading.ScanRows | ent/gen/ent/action_query.go:489-506 | one fresh node per row, or the first scan error |
| EagerLoading.ActionQuery.LoadIfRequested | ent/gen/ent/action_query.go:510-515 | a requested edge is loaded, any other left alone |
| EagerLoading.ActionQuery.LoadAll | ent/gen/ent/action_query.go:510-533 | the four loads give every node all edges of the batched queries as they were at the start |
| EagerLoading.ActionQuery.SqlAll | ent/gen/ent/action_query.go:478-540 | for all rows, selected columns, requested edges and With options: succeeds iff every row can be decoded; every Action carries of its row exactly what was asked for, and the edges of the batched queries; these are the edges of its own queries, none for a NULL key, iff every batch fits |
| EagerLoading.EdgesByColumn | ent/gen/ent/action_query.go:542-657 | each edge by its own column - BazelInvocation by the bazel invocation id, Stdout by the stdout file id, and so on - in the batch and in the reference |
| EagerLoading.EagerIsNaive | ent/gen/ent/action_query.go:478-540 | for all rows, NULL keys and builders, eager loading equals one query per row and non-NULL key iff every batch fits its page in the sense of NullKeyExact |
| EagerLoading.UnpagedIsNaive | ent/gen/ent/action_query.go:478-540 | without offsets and limits: iff no requested edge has both a NULL key and a neighbour with id 0 |
| EagerLoading.AccessorExact | ent/gen/ent/action.go:75-115 | on every returned node: not loaded iff the edge was not requested, otherwise the row the batched query has for the key, or not found |
| EagerLoading.NullKeyExact | ent/gen/ent/action_query.go:604-657 | the loads of one edge agree with the nullable keys of all rows iff the rows fit the page and no NULL key meets a row with id 0, or the page cuts off just that row and no key is 0 |
| EagerLoading.NullKeyLoads | ent/gen/ent/action_query.go:604-609 | eager loading gives an Action with a NULL key the file with id 0, its own query none |
| EagerLoading.ReuseExact | ent/gen/ent/action_query.go:555-556 | a second run of a builder, over any rows, gives them the edges of a fresh builder iff the first run asked for every neighbour up to the end of the page |
| EagerLoading.ReuseLoses | ent/gen/ent/action_query.go:555-556 | a builder run over file 1 and then over file 2 does not find file 2 |
| SummaryScan.ScanValues | ent/gen/ent/actionsummary.go:97-110 | one slot of the column's kind per column |
| SummaryScan.AssignValues | ent/gen/ent/actionsummary.go:114-161 | the loop gives what the fold over the columns gives, with its error |
| SummaryScan.AcceptsScanned | ent/gen/ent/actionsummary.go:97-161 | what scanValues allocated is always accepted, duplicate and unknown columns included |
| SummaryScan.FirstError | ent/gen/ent/actionsummary.go:114-161 | whatever the driver delivers: the first value of another kind decides the error |
| SummaryScan.AssignExact | ent/gen/ent/actionsummary.go:114-118 | a mismatch is reported iff there are fewer values than columns; all is assigned iff there are not and every known column has a number |
| SummaryScan.LastValue | ent/gen/ent/actionsummary.go:114-161 | every counter and the hidden key end with their last non-null value, or unchanged |
| SummaryScan.LastId | ent/gen/ent/actionsummary.go:120-125 | the id is its last value, NULL read as 0 |
| SummaryScan.SelectedValues | ent/gen/ent/actionsummary.go:157-158 | an unknown column ends in selectValues with its last value, a known one never gets there |
| SummaryScan.OnlyUnknownColumns | ent/gen/ent/actionsummary.go:157-158 | unknown columns change nothing else and never fail |
| SummaryScan.ScannedKey | ent/gen/ent/actionsummary_query.go:494-500 | whatever fields are selected, a scanned summary has its id, and its hidden nullable key iff the keys were added or the column was selected (a missing key reads as NULL) |
| SummaryScan.RowCarried | ent/gen/ent/actionsummary_query.go:483-509 | whatever is selected, a valid row scans, and the summary carries exactly what was asked for, counter by counter, with the hidden key iff it was added or selected |
| SummaryLoading.Prepare | ent/gen/ent/actionsummary_query.go:603-611 | collects the ids, indexes the nodes, initialises the lists |
| SummaryLoading.HandOut | ent/gen/ent/actionsummary_query.go:620-630 | one neighbour goes to the node its key names, which alone changes |
| SummaryLoading.Distribute | ent/gen/ent/actionsummary_query.go:620-630 | all neighbours in query order; neither error is reachable |
| SummaryLoading.LoadChildren | ent/gen/ent/actionsummary_query.go:602-691 | never fails; each node's list is the neighbours with its key in query order |
| SummaryLoading.AllKeys | ent/gen/ent/actionsummary_query.go:612-615 | with keys scanned and filtered for, every neighbour has a known key |
| SummaryLoading.FilteredExact | ent/gen/ent/actionsummary_query.go:612-620 | the children of a query are the rows that pass its filters, in order, each with its id, its data and, if keys are scanned, its key |
| SummaryLoading.LoadMetrics | ent/gen/ent/actionsummary_query.go:570-601 | every node gets what the batched query has for its key, NULL loads nothing, no error is reachable |
| SummaryLoading.MetricsExact | ent/gen/ent/actionsummary_query.go:570-601 | every node's metrics are those of its own query iff the batched rows fit the page |
| SummaryLoading.ActionSummaryQuery.LoadEach | ent/gen/ent/actionsummary_query.go:548-561 | edges loaded in any order of a Go map give the same result |
| SummaryLoading.ActionSummaryQuery.LoadAll | ent/gen/ent/actionsummary_query.go:528-561 | all plain and named edges are loaded from their own queries, others not |
| SummaryLoading.ActionSummaryQuery.ScanRows | ent/gen/ent/actionsummary_query.go:501-509 | one new node per row, which carries exactly what was asked for, its id, and its hidden key when keys are scanned |
| SummaryLoading.ActionSummaryQuery.LoadMetricsIfRequested | ent/gen/ent/actionsummary_query.go:522-527 | requested metrics are loaded for the scanned keys, others left alone |
| SummaryLoading.ActionSummaryQuery.SqlAll | ent/gen/ent/actionsummary_query.go:483-568 | for all valid rows, selected fields and requested edges: no error; every summary carries exactly what was asked for, the metrics of its hidden key and its share of every requested child query |
| SummaryLoading.NamedExact | ent/gen/ent/actionsummary.go:230-274 | the named accessor reports not loaded iff the name was not asked for; otherwise it has the list, empty or not |
| SummaryLoading.StatisticsExact | ent/gen/ent/actionsummary_query.go:542-547 | the one-to-one edge is there iff it was requested and the node has a child in its share, and is then the last of them |
| ChildPages.SplitExact | ent/gen/ent/actionsummary_query.go:612-631 | one page splits into the parents' own pages iff it holds all rows, or none, or up to its end the children of one parent while no other has more than the offset hides |
| ChildPages.LimitLosesChild | ent/gen/ent/actiondata_query.go:491-493 | two parents and a limit of one: the second parent's list stays empty |
| SummaryLoading.SharesExact | ent/gen/ent/actionsummary_query.go:602-632 | every node's list is its own one-node query, offset and limit included, iff the batched rows fit the page and no node whose id occurs again has children |
| SummaryLoading.UnpagedShares | ent/gen/ent/actionsummary_query.go:602-632 | without offset and limit: iff no node whose id occurs again has children |
| SummaryLoading.ChildrenReuseExact | ent/gen/ent/actionsummary_query.go:602-691 | a second run of a builder hands its nodes the children a fresh one would iff, for every requested child edge, all rows up to the end of the page belong to summaries of the first run |
| SummaryLoading.MetricsReuseExact | ent/gen/ent/actionsummary_query.go:570-601 | and loads their metrics alike iff the first run met no key or asked for every row up to the end of the page |
| SummaryLoading.ReuseLosesChildren | ent/gen/ent/actionsummary_query.go:602-632 | a builder run over summary 1 and then over summary 2 does not find the child of summary 2 |
| SummaryLoading.SharesPartition | ent/gen/ent/actionsummary_query.go:602-632 | the lists together hold every neighbour exactly once |
| EdgeUpdates.EdgeMutation.Add | ent/gen/ent/mutation.go:4173-4180 | the ids join the recorded additions |
| EdgeUpdates.EdgeMutation.Remove | ent/gen/ent/mutation.go:4193-4201 | the ids leave the recorded additions and join the removals |
| EdgeUpdates.EdgeMutation.AppendTo | ent/gen/ent/actionsummary_update.go:370-414 | an edge's block appends clear and add entries with the recorded effect on that edge and none on others |
| EdgeUpdates.ActionSummaryUpdate.Call | ent/gen/ent/actionsummary_update.go:143-268 | a setter - ids for ActionData and RunnerCount, one id for Metrics and ActionCacheStatistics, Clear for all - changes the recorded change of its own edge only |
| EdgeUpdates.ActionSummaryUpdate.SqlSave | ent/gen/ent/actionsummary_update.go:296-499 | the lists leave every edge as its change says; the mutation is done iff the update worked |
| EdgeUpdates.SavedExact | ent/gen/ent/actionsummary_update.go:341-488 | saving gives what the calls give in order plus exactly the ids added before a Clear and not named since |
| EdgeUpdates.BatchIsInOrder | ent/gen/ent/actionsummary_update.go:341-488 | batch and in-order meaning agree iff there are no such ids, always without Clear |
| EdgeUpdates.ClearedTooEarly | ent/gen/ent/actionsummary_update.go:341-414 | added and then cleared, the id is still a neighbour after saving |
| BulkCreate.ActionCreateBulk.MutateFrom | ent/gen/ent/action_create.go:930-972 | the recursive chain of hooks, check, spec and successor is the reference recursion |
| BulkCreate.ActionCreateBulk.InsertBatch | ent/gen/ent/action_create.go:947-954 | the one batch insert: all rows or none |
| BulkCreate.ActionCreateBulk.Save | ent/gen/ent/action_create.go:923-979 | Save is the chain from builder 0, nothing for no builders |
| BulkCreate.CheckExact | ent/gen/ent/action_create.go:264-281 | the check passes iff bazel invocation, configuration and label are set, and otherwise names the first of them that is missing |
| BulkCreate.MutateOutcome | ent/gen/ent/action_create.go:933-966 | from any point of the chain: nothing was inserted and no mark changed, or everything was inserted and the builders from some k on are finished |
| BulkCreate.AttemptExact | ent/gen/ent/action_create.go:933-954 | from any point of the chain: the insert is attempted, with the rows of the hooked fields, iff every remaining builder's hooks let it through with bazel invocation, configuration and label set |
| BulkCreate.InsertLast | ent/gen/ent/action_create.go:944-954 | a batch insert is attempted at most once, last, and after every builder's check |
| BulkCreate.RefusalExact | ent/gen/ent/action_create.go:933-972 | if a builder does not pass, Save returns the first such builder's refusal: its hook's error, or the first required field that its hooked fields lack |
| BulkCreate.LateErrorExact | ent/gen/ent/action_create.go:944-972 | if all pass, an error is the database's constraint error, or that of the innermost hook that refuses the entity of the last builder with such a hook |
| BulkCreate.InsertExact | ent/gen/ent/action_create.go:933-954 | the insert is attempted iff every builder's hooks let it through and its hooked fields have bazel invocation, configuration and label; it works iff the database accepts and the ids are new and distinct |
| BulkCreate.SaveExact | ent/gen/ent/action_create.go:923-979 | rows are inserted iff both hold, Save succeeds iff then no hook refuses its entity, and the database ends with one more row per builder, column by column its hooked fields, or as it was; all from builders, hooks and database |
| BulkCreate.SaveSucceeds | ent/gen/ent/action_create.go:956-978 | on success row i has, column by column, builder i's hooked fields under its given or database-assigned id; node i shows that row, which has every required column; and every mutation is done |
| BulkCreate.AllOrNothing | ent/gen/ent/action_create.go:923-979 | without late-failing hooks Save succeeds iff the builders pass and the database takes the rows; an error leaves database and marks alone, success marks all |
| BulkCreate.LateFailureExact | ent/gen/ent/action_create.go:956-966 | the marks are all or nothing iff the rows cannot be inserted or no hook of a builder after the first refuses the entity its fields and id make |
| BulkCreate.LateFailureHappens | ent/gen/ent/action_create.go:956-966 | two builders, the second refused late: rows stored, one mutation done, the other not |
| Batcher.Batcher.AddItem | cmd/bb_seed/main.go:163-169 | the item joins the chunk, which is flushed at the batch size; nothing is lost, errors included |
| Batcher.Batcher.FlushChunk | cmd/bb_seed/main.go:171-187 | a non-empty chunk is executed once and its results appended, or the state is kept on an error |
| Batcher.Batcher.Result | cmd/bb_seed/main.go:189-195 | flushes and returns the output or the error |
| Batcher.AlwaysConserved | cmd/bb_seed/main.go:143-195 | whatever execute answers, executed chunks and the waiting one are the items in order, and processed counts the executed ones |
| Batcher.ResultChunks | cmd/bb_seed/main.go:143-195 | without errors exactly the reference chunks are executed, processed is the item count, the output is the results in order |
| Batcher.ChunksShape | cmd/bb_seed/main.go:141-169 | the chunks concatenate to the items, none is empty or above 500, all but the last have 500 |
| Batcher.PositionalResults | cmd/bb_seed/main.go:163-195 | if execute answers positionally, result i belongs to item i and indexing by item is in bounds |
| InstanceSeeder.InstanceSeeder.CreateBulk | cmd/bb_seed/main.go:632-634 | one row per builder under the next ids, whatever they are, in order; or a failure without rows |
| InstanceSeeder.InstanceSeeder.SaveAll | cmd/bb_seed/main.go:632-665 | a batcher over the rows makes the reference chunks up to the first failing save; without one it returns an id per row, in order |
| InstanceSeeder.InstanceSeeder.SeedBazelInvocations | cmd/bb_seed/main.go:623-762 | the invocations, then one connection and one event row for each, indexed by position, up to the first failing save |
| InstanceSeeder.InstanceSeeder.SeedTargets | cmd/bb_seed/main.go:409-444 | one target per index, ids in order, up to the first failing save |
| InstanceSeeder.InstanceSeeder.SplitTargets | cmd/bb_seed/main.go:455-461 | the loop partitions the targets by the kind in their rows, in order |
| InstanceSeeder.InstanceSeeder.Pairs | cmd/bb_seed/main.go:486-499 | the nested loops build every pair in order |
| InstanceSeeder.InstanceSeeder.ExecuteTestChunk | cmd/bb_seed/main.go:530-575 | a chunk of pairs is followed by a summary for each and a result for each summary, up to the first failing save |
| InstanceSeeder.InstanceSeeder.SeedBuildInvocationTargets | cmd/bb_seed/main.go:475-506 | saves the pairs of all invocations and build targets, up to the first failing save |
| InstanceSeeder.InstanceSeeder.SeedTestInvocationTargets | cmd/bb_seed/main.go:508-596 | saves the markers, then the pairs with their summaries and results chunk by chunk, up to the first failing save |
| InstanceSeeder.InstanceSeeder.SeedInvocationTargets | cmd/bb_seed/main.go:446-472 | the build pass and the test pass over the partitioned targets, up to the first failing save |
| InstanceSeeder.InstanceSeeder.Seed | cmd/bb_seed/main.go:314-332 | for any ids and any failing saves, one goroutine performs exactly the reference program of bulk saves under those ids, up to the first failure |
| InstanceSeeder.GoroutineIsTask | cmd/bb_seed/main.go:312-335 | what the goroutine leaves is a task of the interleavings on track, complete iff no save failed |
| InstanceSeeder.GoroutineStep | cmd/bb_seed/main.go:312-335 | each of its saves writes what a step of that task stores: every row under its new id, references renamed |
| SeedProgram.PairsOnce | cmd/bb_seed/main.go:446-596 | every (invocation, target) pair is in exactly one invocation target across both passes, nothing else is in one |
| SeedProgram.SummariesAndResults | cmd/bb_seed/main.go:530-575 | an invocation target has one summary iff its target is a test rule, else none; a summary has one result |
| SeedProgram.MetadataOnce | cmd/bb_seed/main.go:632-761 | row i is the invocation of index i with no user iff there are no users, and else the user at index pickUser(i) modulo their number; each has exactly one connection and one event row |
| SeedProgram.MarkersOnce | cmd/bb_seed/main.go:516-528 | exactly the test-rule targets are marked, once each, if there are invocations |
| SeedProgram.PairsJoinInstance | cmd/bb_seed/main.go:446-596 | a pair's two references are an invocation and a target of this instance |
| SeedProgram.ReferencesPointWell | cmd/bb_seed/main.go:508-761 | every reference points at a row of the right kind |
| SeedProgram.SavesOrdered | cmd/bb_seed/main.go:314-332 | every save refers only to rows that earlier saves created |
| SeedRuns.Step | cmd/bb_seed/main.go:312-335 | one goroutine's next bulk save, or its failure; ids stay one per created row |
| SeedRuns.RunKeeps | cmd/bb_seed/main.go:312-335 | in every interleaving: stored rows are the programs' rows under fresh distinct ids, rows from before are untouched, no other rows exist |
| SeedRuns.PairsAlwaysJoin | cmd/bb_seed/main.go:312-335 | at every moment of every interleaving, failures included, every invocation target joins an invocation and a target of one instance and every reference has the right kind |
| SeedRuns.ScheduleIndependence | cmd/bb_seed/main.go:312-335 | an instance with equally many saves in two runs has the same rows up to a bijective renaming of ids, whatever the schedules and the other instances' failures |
| SeedRuns.MetadataInDatabase | cmd/bb_seed/main.go:648-759 | from any database whose references exist, in any run: each invocation of a complete instance is stored with its index and that user, and with exactly one connection and one event row |
| SeedRuns.PairInDatabase | cmd/bb_seed/main.go:446-596 | likewise each pair has exactly one invocation target, with exactly one summary and one result iff its target is a test rule |
| SeedTimes.SeedTimesOf | cmd/bb_seed/main.go:635-638 | the loop gives invocation i the 64-bit time of index i |
| SeedTimes.StepExact | cmd/bb_seed/main.go:635-638 | the step is the quotient of the span by the number of invocations, rounded towards zero |
| SeedTimes.NoOverflow | cmd/bb_seed/main.go:635-638 | i * step never overflows 64 bits and stays within the span, for spans of either sign |
| SeedTimes.TimeExact | cmd/bb_seed/main.go:635-638 | invocation i is seeded at from plus i steps, without a wrap |
| SeedTimes.InSpanExact | cmd/bb_seed/main.go:635-638 | all times lie in [from, from + timeSpan) iff the span is positive |
| SeedTimes.EmptyAndNegativeSpan | cmd/bb_seed/main.go:635-638 | the empty span has no room for its one time, and a negative span goes back |
| SeedTimes.NonDecreasingExact | cmd/bb_seed/main.go:728-746 | times never decrease iff the span is above minus one nanosecond per invocation, or there is one invocation |
| Visibility.PrivacyFilter | ent/authschema/privacy.go:23-44 | bypass leaves the filter alone, no service denies, otherwise exactly the policy's predicate is added, with NULL for an empty list |
| Visibility.OutcomeExact | ent/authschema/privacy.go:23-44 | the three outcomes written out: skip under a bypass, deny without the service, else one more predicate, over the names or over NULL alone if there are none |
| Visibility.PolicyExact | ent/authschema/privacy.go:47-155 | every kind of row but instance names and invocation targets has a policy, and each of these eight path predicates holds iff one of the row's instances has a listed name |
| Visibility.VisibleExact | ent/authschema/privacy.go:23-155 | a row is visible iff it exists and the request bypasses, or has the service and lists a name of one of its instances; without a bypass such a name is enough for all kinds but users |
| Visibility.Monotone | ent/authschema/privacy.go:33-38 | more names never hide a row; the empty list shows nothing |
| Visibility.FileAsPath | ent/authschema/privacy.go:86-110 | a file's predicate is its path's |
| Visibility.PoliciesAgree | ent/authschema/privacy.go:86-155 | every request sees a file iff its path, a test target iff its target, a test summary iff the target of its pair |
| Visibility.UserAgrees | ent/authschema/privacy.go:47-71 | for every context and user, "the user is visible iff one of their invocations is" holds exactly without a bypass or if the user has an invocation |
| Visibility.LoneUser | ent/authschema/privacy.go:23-29 | under a bypass a user without invocations is visible |
| Visibility.SummaryAsInvocationExact | ent/authschema/privacy.go:125-140 | a summary and its invocation are visible to the same requests iff their instances' names are equal |
| Visibility.SummaryApart | ent/authschema/privacy.go:125-140 | a summary and an invocation of differently named instances are not visible to the same requests |
| Visibility.DbAuthService.GetInstanceNames | internal/database/dbauthservice/dbauthservice.go:41-66 | a young cache and a failed query change nothing, otherwise the cache becomes the valid names of the database |
| Visibility.DbAuthService.GetAuthorizedInstanceNames | internal/database/dbauthservice/dbauthservice.go:70-81 | exactly the cached names the authoriser allows, never NULL |
| Visibility.SeesWhatIsAllowed | ent/authschema/privacy.go:23-155 | with names cached at any earlier time a request sees exactly the rows of an instance with a cached, valid, allowed name: nothing that is not allowed, and with a cache as new as the store all that is |
| SeededVisibility.SeededSummaries | ent/schema/invocationtarget.go:51-64 | after every step of every seeding run a test summary is visible to exactly the requests that see its invocation |
| SeededVisibility.SeenByName | ent/authschema/privacy.go:47-155 | on any database whose references are right, an invocation and a target are seen by the name of their instance, a test target by that of its target, a user by that of some stored invocation of theirs |

## Left out

- The aborted state of a PostgreSQL transaction after a failed statement: a failed statement is without effect, as in the SQL standard.
- Queries on the savepoint driver, connection loss, and several goroutines sharing one transaction.
- Savepoints.HandleOutcome: ids are distinct because `uuid.New` is taken never to repeat; a repeated id is not modelled.
- JavaScript prototype keys in a manifest, and the generic regular-expression engine: the four replacements are written out on strings.
- Reading and writing manifest files, JSON parsing, hot reloading.
- RouteManifest.KeyOrderIndependent: needs one key per id that occurs in a layout chain; with two such keys the first one wins, as OwnChunkIncluded says.
- EagerLoading.ActionQuery.SqlAll: leaves out `SELECT DISTINCT`, interceptors, modifiers, `loadTotal`, negative limits and offsets, and errors of the SQL engine. Rows of a neighbour table have distinct ids, its primary key.
- SummaryLoading.ActionSummaryQuery.SqlAll: leaves out the same, and the plain edge accessors, which are the template of Action's.
- EdgeQuery and ChildQuery builders are values, so one builder shared by two edges is not captured; column names are a datatype, so two spellings of one name are not.
- `Only`, `First`, `Exist`, counts and panicking variants: one-branch code over the same queries.
- EdgeUpdates.ActionSummaryUpdate.SqlSave: covers the four edges of one summary; numeric fields with Set, Add and Clear, predicates, updates of several summaries at once, and what the SQL engine does with a neighbour that belongs to another summary are left out.
- BulkCreate keeps id, label, type and the four edges of an Action; the other scalar fields are copied alike. The two edge checks follow from the field checks, since edge and field share one pointer. Upserts (`OnConflict`), a builder error set beforehand, and hooks that skip or repeat their successor or pass another mutation are not modelled.
- InstanceSeeder.InstanceSeeder.SeedBazelInvocations: leaves out the source control and invocation tag rows, host names and statuses, which are more rows of the same kind.
- InstanceSeeder.InstanceSeeder.Seed: leaves out seedBuild with its build tags, negative counts, progress logging and tracing.
- SeedRuns.Step: ids of different tables are taken apart from each other, so one number never names two rows.
- SeedRuns.ScheduleIndependence: compares equally many saves of one instance; instance names and users are created before the goroutines start and are named by id.
- SeedTimes.SeedTimesOf: `time.Time` is an integer of nanoseconds without a bound; only the 64-bit product is.
- Visibility covers the tables the eight policies walk; ent's compilation of predicates to SQL is a contract, with NULL in a list equal to nothing.
- Visibility.DbAuthService.GetInstanceNames: time saturation of the zero time and concurrent calls are not modelled.
- GraphQL resolvers, HTTP and gRPC services, event recording, cleanup, metrics, React components.
