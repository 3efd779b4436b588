# Oculus graph algorithms and shared-state protocols

Oculus builds symbol and dependency graphs of a code base and answers questions about them.
This project models its algorithmic core in Dafny and proves what that core is for:

- the graph kernel: Brandes' betweenness with its parallel split over sources, breadth-first searches,
  connected components and vertex removal, import depth as longest path, cycle normal forms, call paths,
  undirected distance and node ordering, all over one theory of paths and hop distance (`Graphs`, `QueueSearch`);
- protocols under every interleaving: the concurrent call-graph walk, the racer with its background upgrade,
  and the waiter counting of shared builds, one lock section per step, with the sharing of a running build by key;
- the discipline of the symbol-graph cache on the heap: cached graphs are cloned before anything is written;
- graph transformations: the mesh hierarchy and its aggregation, what-if moves on edges, typed call pipelines;
- Go signature parsing and reciprocal rank fusion.

Each module models one source file or one function family; loops over maps and sets take their elements in
any order, so a guarantee holds for every iteration order. Methods follow the loops of the source and are
proved against specification functions or predicates; the lemmas beside them say what those mean.

## Where the code differs from its documentation

- The comment on the import direction check expects an import to go from a deeper to a shallower component.
  `ImportDepth.DepthIncreases` shows that depth grows along every import away from cycles, so the check reports every
  edge whose source is itself imported (`ImportDepth.ReportOnAcyclic`), not a wrong direction.
- Enrichment is documented to clone before it mutates. `GraphCache.EnrichScopedLSP`, taken alone, returns and may write its
  argument when that is already stamped for the entry. `GraphCache.Engine.GetSymbolGraph` never gives it such a graph:
  what the build stores is not stamped, so the stored graphs never change (`GraphCache.Engine.Session`).
- A what-if with moves that touch nothing is not a no-op: self-loops are removed and duplicates merged
  (`WhatIf.UntouchedEdges`).
- The racer calls its cached result the highest-quality one (analyzer/racer.go:89); two overlapping races that both missed
  the cache can replace a better result by a worse one (`Racer.WhatLowersQuality`, `Racer.OverlappingRacesDrop`).
- One caller's leaving is documented not to abort a build that others still wait for (engine/protocol.go:1604-1606).
  `SharedBuilds.WhatStrands` lists the three kinds of steps that do so; because a running build is shared by key, they
  also reach callers of the next flight (`SharedBuilds.AskerAfterCancel`, `SharedBuilds.RegistersForOthers`).
- The overlay is documented to merge the calls of the language server. A call whose text, with the separators between its
  parts, is that of a different edge is dropped behind that edge (`GraphCache.CallsAreKept`).
- Types with a blank in a parameter list, such as channel types, lose everything before their last blank
  (`SignaturePrinting.ListComesBack`, `SignaturePrinting.EntryComesBack`).
  The forms documented for a Go signature have no receiver; with one, it is taken for the parameters
  (`SignaturePrinting.ReceiverTaken`).

## Model

| member | source | states |
|---|---|---|
| `PathCounts.WalksCount` | graph/metrics.go:157-166 | The number computed by adding up the counts of predecessors is the number of paths of exactly k hops. |
| `Dependencies.ShortestPathsAre` | graph/metrics.go:141-167 | The counted set is exactly the shortest paths from the source to a node. |
| `Dependencies.SigmaCounts` | graph/metrics.go:149-167 | sigma is the number of shortest paths, and positive on every reached node. |
| `Dependencies.ThroughIsVia` | graph/metrics.go:170-177 | The shortest paths through a node are the pairs of a shortest path to it and a shortest rest. |
| `Dependencies.DependencyStep` | graph/metrics.go:170-177 | Brandes' recurrence: the dependency on v (sum over all reachable targets of the fraction of shortest paths through v) is the sum over its shortest-path successors w of sigma(v)/sigma(w) times one plus the dependency on w. |
| `Dependencies.DependencyUnreached` | graph/metrics.go:141-179 | Nodes that are not reached have no dependency. |
| `Brandes.Relax` | graph/metrics.go:157-166 | Scanning the neighbours of v, in any order: distances of first visits, queue growth, path counts and predecessor lists, each exactly. |
| `Brandes.SearchStep` | graph/metrics.go:153-167 | Expanding the head of the queue keeps the search invariant (distances exact, levels complete, queue ordered by level, counts and predecessor lists complete for the expanded part). |
| `Brandes.CountComplete` | graph/metrics.go:153-167 | When a node leaves the queue its path count is final. |
| `Brandes.Discovery` | graph/metrics.go:142-167 | After the forward phase: true distances, a stack in order of distance, sigma the number of shortest paths, predecessors the shortest-path parents. |
| `Brandes.Discover` | graph/metrics.go:142-167 | The forward phase as a loop, with the guarantee above; it terminates. |
| `Brandes.PassBack` | graph/metrics.go:172-174 | The inner backward loop gives each parent exactly its portion and changes nothing else. |
| `Brandes.PassedStep` | graph/metrics.go:170-177 | What a node has received is the recurrence restricted to the successors already accumulated. |
| `Brandes.DeltaComplete` | graph/metrics.go:170-177 | Once all its successors are accumulated, the delta of a node is its dependency. |
| `Brandes.Accumulate` | graph/metrics.go:169-178 | The backward phase credits every reached node but the source with exactly its dependency. |
| `Brandes.BrandesBFS` | graph/metrics.go:141-179 | Brandes' theorem for one source: local[w] grows, for every w other than the source, by the sum over reachable targets other than w of the fraction of shortest paths through w; nothing else changes. |
| `BrandesLevels.CrossesOnce` | graph/metrics.go:153-178 | Every shortest path to a node beyond level d passes exactly one node of level d. |
| `BrandesLevels.LevelConservation` | graph/metrics.go:153-178 | At every level d the dependencies of the nodes at distance d add up to the number of nodes farther than d. |
| `BrandesLevels.TotalConservation` | graph/metrics.go:153-178 | The dependencies on all reachable w other than the source add up to the sum of dist(w) - 1. |
| `BrandesLevels.ScoresConserve` | graph/metrics.go:141-179 | What one run of brandesBFS adds to the scores: at every level d > 0 the number of nodes farther than d, and in all, over the reachable w other than the source, the sum of dist(w) - 1. |
| `BrandesLevels.DependencyPairs` | graph/metrics.go:169-178 | The dependency as a sum over targets of path fractions, the definition of betweenness for one source. |
| `Betweenness.ChunksCover` | graph/metrics.go:92-98 | For every number of sources and workers >= 1 the ceiling-division chunks end at the number of sources. |
| `Betweenness.ChunkNext` | graph/metrics.go:92-98 | Consecutive chunks meet: where one ends the next starts, clipped to the number of sources. |
| `Betweenness.ScoreChunk` | graph/metrics.go:104-113 | A worker computes the sum of the one-source results over its chunk. |
| `Betweenness.Merge` | graph/metrics.go:117-123 | Merging adds a partial result key by key. |
| `Betweenness.ScoreSources` | graph/metrics.go:80-123 | Whatever the order in which the workers run, the merged scores are the sum of the one-source contributions over all sources. |
| `Betweenness.BuildAdjacency` | graph/metrics.go:45-60 | The adjacency sets hold exactly the edges in both directions, and the node set their ends. |
| `Betweenness.BetweennessCentrality` | graph/metrics.go:44-123 | Before normalisation the scores are the summed dependencies of all nodes, or of 200 distinct ones of them. |
| `QueueSearch.SearchComplete` | graph/graph.go:75-93 | In a queue search everything no farther than the head has been discovered. |
| `QueueSearch.Discover` | graph/metrics.go:192-197 | A newly discovered neighbour of the head is exactly one hop farther. |
| `QueueSearch.BFSGroup` | graph/metrics.go:184-200 | The group is the nodes reachable from start without entering a visited node, each once and by distance; exactly these become visited. |
| `QueueSearch.BFS` | graph/graph.go:75-93 | Visited are the seeds and exactly what they reach through valid nodes that are not skipped. |
| `Traversal.BuildFwdAdj` | primitives.go:439-445 | The list of a node is its targets in edge order, repetitions included. |
| `Traversal.BuildRevAdj` | primitives.go:447-453 | The same for the reversed edges. |
| `Traversal.ScanLevel` | primitives.go:458-471 | One level of the search: the next frontier is exactly what the frontier sees for the first time. |
| `Traversal.BfsAll` | primitives.go:475-491 | The result is exactly the nodes reachable from start. |
| `Traversal.BfsDirected` | primitives.go:455-473 | Exactly the nodes at hop distance 1 to maxDepth are recorded, each with its exact distance. |
| `Traversal.Duality` | primitives.go:439-473 | For distinct a and b, b is recorded at depth d from a forwards if and only if a is recorded at depth d from b backwards, and then d is the shortest directed distance with 1 <= d <= k. |
| `Graphs.DistReverse` | primitives.go:447-453 | Hop distance in a reversed graph is hop distance with the ends exchanged. |
| `Graphs.DistIsSphere` | primitives.go:455-473 | A node has distance d exactly when it enters the search at level d. |
| `Graphs.BallSaturated` | primitives.go:457-470 | Once a level is empty the visited set is everything reachable. |
| `MeshMetric.Neighborhood` | mesh.go:123-156 | For hops >= 0, n is in the neighbourhood if and only if its undirected distance is between 0 and hops. |
| `MeshMetric.Distance` | mesh.go:214-244 | The result is the shortest undirected hop count, -1 exactly when there is no path. |
| `MeshMetric.DistanceSymmetric` | mesh.go:214-244 | Distance is symmetric. |
| `MeshMetric.DistanceTriangle` | mesh.go:214-244 | Distance obeys the triangle inequality. |
| `MeshMetric.DistanceZero` | mesh.go:214-217 | Distance is zero exactly between a node and itself. |
| `Components.ComponentsWith` | primitives.go:326-359 | The count is the number of classes of undirected reachability between the given nodes. |
| `Components.Flood` | primitives.go:345-356 | One round of the loop visits exactly one component. |
| `Components.Isolate` | primitives.go:293-324 | Both counts are component counts, before and after the symbol and its edges are removed. |
| `Components.BeforeRemoval` | primitives.go:293-324 | The components before are those without the symbol and the one with it. |
| `Components.AfterRemoval` | primitives.go:293-324 | The components after are the untouched ones and the pieces of the one that had the symbol. |
| `Components.RemovalCount` | primitives.go:293-324 | ComponentsAfter is at least ComponentsBefore - 1, equals it exactly when the symbol is a node with no edge to a different node, and ComponentsBefore when it is not a node. |
| `ImportDepth.ComputeDepths` | graph/graph.go:128-181 | Given the exact set of nodes on cycles: -1 on these, the exact longest-path length ending at n for every n neither on nor downstream of a cycle, and for every other node one more than its deepest importer away from cycles, 0 without one. |
| `ImportDepth.Release` | graph/graph.go:166-177 | The inner loop: depths raised, in-degrees lowered once per import, and released nodes queued. |
| `ImportDepth.AllCleanDone` | graph/graph.go:163-178 | When the queue runs empty every node away from cycles has been processed. |
| `ImportDepth.DepthExact` | graph/graph.go:163-180 | A processed node has as depth the length of its longest import chain. |
| `ImportDepth.ComputeImportDirection` | constraint/import_direction.go:31-63 | The reported violations are, in edge order, those the three conditions select, and warnings counts them. |
| `ImportDepth.ReportCounts` | constraint/import_direction.go:31-63 | For every depth map, absent nodes counting as 0: an edge is reported as often as it occurs if neither depth is -1, the first is not 0 and it is smaller, and not at all otherwise. |
| `ImportDepth.ReportIs` | constraint/import_direction.go:26-63 | With the computed depths an edge is reported if and only if neither end is on a cycle and 0 < depth of the source < depth of the target; cycles or not. |
| `ImportDepth.DepthIncreases` | constraint/import_direction.go:46-56 | Away from cycles depth strictly increases along every edge. |
| `ImportDepth.ReportsImportedSources` | constraint/import_direction.go:31-63 | An edge away from cycles is reported if and only if its source has an importer. |
| `ImportDepth.ReportOnAcyclic` | constraint/import_direction.go:31-63 | On a cycle-free graph the report is exactly the edges whose source has an importer, with both depths. |
| `Cycles.NormalizeCycle` | graph/graph.go:202-217 | The result is the rotation that starts at the first least name. |
| `Cycles.NormalFormIsCanonical` | graph/graph.go:202-217 | Cycles of distinct names have the same normal form if and only if each is a rotation of the other. |
| `Cycles.NormalFormsAgree` | graph/graph.go:202-217 | For any names, repeated or not, all rotations of a cycle have its normal form if and only if all its rotations to a least name are equal. |
| `Cycles.KeysTellApart` | graph/graph.go:235-237 | Over names without an arrow the joined key determines the cycle. |
| `Cycles.KeyIsExclusive` | graph/graph.go:235-237 | The names of a cycle are free of arrows if and only if no other cycle at least as long has its joined key. |
| `Cycles.ArrowInName` | graph/graph.go:235-237 | A name is free of arrows if and only if the key of its one-name cycle belongs to no other cycle. |
| `Cycles.DeduplicateCycles` | graph/graph.go:219-227 | One cycle is kept for each key, and no key is lost. |
| `Cycles.CollectCycles` | graph/graph.go:97-127 | Of elementary cycles over arrow-free names, no two reported ones are rotations of each other, and each is reported up to rotation. |
| `CallWalk.NodesWithinDepth` | symbol_pipeline.go:58-176 | For every schedule, depth, source failure and cancellation, every recorded node is, under its package-qualified name and field by field, a symbol within depth hops of a root. |
| `CallWalk.EdgesWithinDepth` | symbol_pipeline.go:96-148 | For every schedule, depth, source failure and cancellation, every recorded edge is, field by field, a relation of a symbol fewer than depth hops from a root, its caller is among the nodes, its callee too if in the workspace, and its types are unknown or those of a symbol of the callee's qualified name. |
| `CallWalkComplete.WalkComplete` | symbol_pipeline.go:58-176 | With unique names and keys, no failures and no cancellation, and a depth of at least the number of symbols, every finished walk has stored exactly the in-workspace symbols reachable from the roots, and for each of them the edges of exactly its relations, once and in order: caller and package, callee and package, line, file, crossing, kind, confidence, arguments and the types of the callee. |
| `CallWalkTermination.FramePays` | symbol_pipeline.go:62-150 | Every step of a call, failing or not, pays for what replaces the call and for the symbol it newly visits. |
| `CallWalkTermination.WalkEnds` | symbol_pipeline.go:58-176 | For every schedule, with any failures, cancellation, depth and names, a walk over a finite closed world makes no more steps than a bound fixed by the roots and relations alone. |
| `CallWalkTermination.NeverStuck` | symbol_pipeline.go:155-176 | A walk is finished exactly when no goroutine can make a step. |
| `CallWalkTermination.BoundReached` | symbol_pipeline.go:58-176 | A walk that has made that many steps is finished. |
| `CallWalkTermination.WalkFinishes` | symbol_pipeline.go:58-176 | Every walk can be continued by undisturbed steps until it is finished. |
| `CallWalkTermination.WalkCompletes` | symbol_pipeline.go:58-176 | Under the conditions of WalkComplete, one bound holds for the steps of all schedules, and every undisturbed walk reaches an end, with the complete result, within it. |
| `CallWalkComplete.ScheduleIndependent` | symbol_pipeline.go:58-176 | Under the same conditions any two finished walks have the same nodes and the same multiset of edges. |
| `CallWalkComplete.GoodStep` | symbol_pipeline.go:62-150 | One lock section or source call keeps the invariant about visited names, logged edges, call stacks and the signature cache. |
| `CallWalkComplete.AllReachedLogged` | symbol_pipeline.go:146-148 | When all goroutines are done every reachable symbol has been expanded over all its relations. |
| `Racer.Racer.Race` | analyzer/racer.go:85-243 | A cached result is returned as it is. Otherwise the answer has the value, name and quality of a usable attempt, is not marked cached, and is marked degraded exactly below the minimum: the first qualified attempt, which is then cached, or else the first of the best. An error comes exactly when no attempt is usable and the minimum is positive, and cancellation exactly before a first qualified attempt. |
| `Racer.Racer.Upgrade` | analyzer/racer.go:205-219 | A background arrival replaces the cached result only if it is usable and of higher quality, or nothing is cached; the result then carries its value, name and quality, unmarked. |
| `Racer.Racer.Drain` | analyzer/racer.go:200-222 | The remaining arrivals upgrade the cache one by one. |
| `Racer.Racer.Invalidate` | analyzer/racer.go:246-250 | The cache is empty afterwards. |
| `Racer.DrainedRaceIsBest` | analyzer/racer.go:131-225 | After an uncancelled, non-interactive race with a winner has drained, the cache holds, unmarked, the first of the best attempts from the winner on, and its quality is the maximum over all usable attempts. |
| `Racer.CacheIsDelivered` | analyzer/racer.go:85-250 | Over every run, with invalidation and cancellation, a cached result carries what some attempt of a started race delivered without failing or being empty, unmarked. |
| `Racer.AloneIsRace` | analyzer/racer.go:131-225 | The run of one race on its own: it waits until its first qualified attempt, caches that, and then is over when interactive, or drains as the method does. |
| `Racer.DrainedRunIsBest` | analyzer/racer.go:85-243 | In a whole run without Invalidate and with one cache-missing race at a time, once a race has drained the cached quality is, from then on, at least the minimum and at least that of each of its usable attempts. |
| `Racer.CacheQualified` | analyzer/racer.go:85-243 | Without Invalidate the cached quality is never below the minimum, over every interleaving of any number of races. |
| `Racer.QualityNeverDrops` | analyzer/racer.go:85-243 | Without Invalidate and with one cache-missing race at a time, the cached quality never drops. |
| `Racer.WhatLowersQuality` | analyzer/racer.go:183-188 | A step lowers the cached quality if and only if it invalidates the cache or is the first win of a race whose qualified result is worse than the cached one. |
| `Racer.OverlappingRacesDrop` | analyzer/racer.go:183-188 | Two overlapping cache-missing races do lower it, for any two qualities (a concrete run). |
| `Racer.ClearedDrainCachesUnqualified` | analyzer/racer.go:210-218 | After Invalidate a running drain caches a result below the minimum, for every qualified first and usable unqualified second arrival. |
| `Racer.WhatCachesUnqualified` | analyzer/racer.go:210-218 | The cache becomes unqualified exactly when a drain receives a usable result below the minimum while nothing is cached. |
| `Flight.SgFlight.Join` | engine/protocol.go:1640-1647 | One more waiter. |
| `Flight.SgFlight.Release` | engine/protocol.go:1649-1654 | One waiter less; the new count and the cancel function are taken out of the lock. |
| `Flight.SgFlight.SetCancel` | engine/protocol.go:1664-1672 | The cancel function is registered, and called at once exactly when there is no waiter. |
| `Flight.FlightInvariant` | engine/protocol.go:1640-1672 | Over every interleaving of loads, joins, leaves and registrations, waiters is the number of callers inside, and a registered cancel function of a flight without waiters has been called or is in the hands of its last leaver. |
| `Flight.NoLeakedBuild` | engine/protocol.go:1640-1672 | Whenever no leaver is between its unlock and its cancel call, a flight with a registered cancel function and nobody inside has been cancelled, whichever of registration and last leave came first. |
| `Flight.WhatLists` | engine/protocol.go:1640-1642 | A key gets a flight exactly when it is loaded without one: a new one, with nobody inside and nothing registered. |
| `Flight.WhatUnlists` | engine/protocol.go:1655-1661 | A key loses its flight exactly by the removal of a caller that left this very flight. |
| `Flight.PromptCancelIsUnoccupied` | engine/protocol.go:1649-1660 | A cancel call directly after the unlock sees zero exactly when nobody is inside at that moment; a later join can still enter the cancelled flight. |
| `Flight.WhatLosesBuilds` | engine/protocol.go:1640-1672 | For the build registered with the caller's own flight: a step leaves a caller inside a flight whose registered build is cancelled if and only if it is the cancel call of a leaver who saw zero while somebody has joined since, or a join to a flight whose build has been cancelled already. |
| `Flight.HarmlessRuns` | engine/protocol.go:1640-1672 | Over whole runs with fresh builds, no caller is ever inside a flight whose own registered build is cancelled if and only if the run has no such event; builds shared across flights are in SharedBuilds. |
| `Flight.LateJoinerLosesBuild` | engine/protocol.go:1654-1660 | The first kind happens: in the named run, for every key and build, the cancel call of the first caller comes after the second has joined, and the flight is lost by exactly that call. |
| `Flight.JoinerAfterCancel` | engine/protocol.go:1655-1661 | The second kind happens: in the named run, for every key and build, the cancel call follows the unlock at once, the flight is still in the table for the key, and the flight is lost by exactly the join that follows. |
| `SharedBuilds.SharedInvariant` | engine/protocol.go:1607-1637 | Over every interleaving of callers and executions: each key has at most one running execution, every caller waits for an execution or has not asked, a flight serves one key, and the build of a running execution is the one registered with the flight of the caller that started it. |
| `SharedBuilds.WhatStrands` | engine/protocol.go:1604-1672 | A step leaves a caller waiting for a cancelled running build, of its own flight or another, if and only if it is the cancel call of a leaver who took that build and saw zero, a caller asking for a key whose running build is cancelled, or the registration of the build it waits for with a flight nobody is in. |
| `SharedBuilds.SmoothRuns` | engine/protocol.go:1604-1672 | Over whole runs with fresh builds, no caller ever waits for a cancelled running build if and only if no event of the run is of these three kinds. |
| `SharedBuilds.OwnFlight` | engine/protocol.go:1607-1637 | For a caller that waits for an execution started from its own flight, waiting for a cancelled build is the same as the flight being lost with the build registered, and the third kind cannot happen. |
| `SharedBuilds.AskerAfterCancel` | engine/protocol.go:1611-1660 | In the named run, for every key and build, a caller of the next flight asks while the cancelled build of the previous flight is still running, while no flight is lost. |
| `SharedBuilds.RegistersForOthers` | engine/protocol.go:1611-1672 | In the named run, for every key and build, a build registers with the flight its starter has left and is cancelled under a caller of the next flight that waits for it, while no flight is lost. |
| `GraphCache.CloneSymbolGraph` | engine/protocol.go:1841-1853 | The clone has the same value and entirely fresh storage. |
| `GraphCache.StampFocus` | engine/protocol.go:1788-1805 | The graph itself without an entry or when already stamped, else a fresh clone with the focus and default tiers set. |
| `GraphCache.OverlayCallGraph` | engine/protocol.go:1856-1901 | The graph becomes its overlay with the call graph; only the graph and its spare capacity are written. |
| `GraphCache.MergedExtends` | engine/protocol.go:1860-1900 | The base stays as a prefix, new keys are not repeated, and exactly the missing keys are added. |
| `GraphCache.OverlayIdempotent` | engine/protocol.go:1856-1901 | Overlaying the same call graph twice equals overlaying it once. |
| `GraphCache.OverlayNodes` | engine/protocol.go:1860-1872 | The nodes stay as a prefix; behind it stand language-server nodes whose package-qualified name is new, the first of each; and every language-server node has its name among the nodes. |
| `GraphCache.OverlayEdges` | engine/protocol.go:1873-1900 | The edges stay as a prefix; each edge behind it goes from the caller to the callee of a language-server call, with its kind or "call", file, line, types, arguments, its confidence as weight and layer "lsp"; it is the first such call, and no earlier edge has the same ends and kind. |
| `GraphCache.CallsAreKept` | engine/protocol.go:1873-1889 | A language-server call is in every overlay, whatever it is overlaid on, if and only if neither name has an arrow and neither callee nor kind has a bar, the texts by which edges are compared. |
| `GraphCache.EnrichedFields` | engine/protocol.go:1739-1805 | Every field of an answer: focus, time, tier and winner, and nodes and edges as they were unless the language server found calls. |
| `GraphCache.AnswerFromBuild` | engine/protocol.go:1570-1638 | The answer from a new build has the built nodes and edges in front, and exactly these on the AST tier unless calls were overlaid. |
| `GraphCache.EnrichScopedLSP` | engine/protocol.go:1739-1785 | The result is the stamped and overlaid base: a fresh graph, or the base itself if the entry is empty or the base is already stamped for it; only a base already stamped is written. |
| `GraphCache.Engine.SgLoad` | engine/protocol.go:192-204 | The entry if it has not expired; an expired one is evicted. |
| `GraphCache.Engine.SgStore` | engine/protocol.go:224-233 | Expired entries go, the new one is added, the others stay. |
| `GraphCache.Engine.SgCacheFlush` | engine/protocol.go:215-221 | No entry is left, and their number is returned. |
| `GraphCache.Engine.GetSymbolGraph` | engine/protocol.go:1570-1638 | The answer is the enriched cached or newly built graph, a new build is stored for the key with the expired entries swept, and no graph stored before, nor its node or edge storage, is written. |
| `GraphCache.Engine.Session` | engine/protocol.go:1570-1638 | Over every sequence of requests each stored graph keeps the footprint and the value with which it was stored. |
| `Mesh.ResolveComponent` | mesh.go:26-36 | The first match in the sorted names, else the package. |
| `Mesh.ComponentIsLongest` | mesh.go:22-36 | With names sorted longest first the component is the longest listed name that is the package or a path above it, however equal lengths are ordered. |
| `Mesh.ComponentIs` | mesh.go:22-36 | The component is a listed name that is the package or a prefix of it followed by a slash, none such is longer, and without any it is the package, or "(root)" for the unnamed one. |
| `Mesh.KeysAre` | mesh.go:38-45 | The keys of a symbol and of its file, with and without package and file name. |
| `Mesh.BaseIs` | mesh.go:41-45 | A path is a directory, its base name without slashes, and slashes at the end; the empty path has base name "." and one of slashes "/". |
| `Mesh.ComponentIdempotent` | mesh.go:26-36 | A component is its own component. |
| `Mesh.FileKeyHasOnePackage` | mesh.go:41-45 | Symbols with the same file key are in the same package, for all package and file names. |
| `Mesh.BuildMesh` | mesh.go:38-77 | The node map is the result of placing the symbols in order. |
| `Mesh.NodesAre` | mesh.go:38-77 | For all symbols and component names the keys of the mesh are exactly those of the symbols, their files, packages and components. |
| `Mesh.ChildrenListedOnce` | mesh.go:52-76 | For all symbols no node lists a child twice, and each symbol leaves the children of all nodes but its own in place and order. |
| `Mesh.PlaceRight` | mesh.go:38-77 | Placing a symbol keeps every node at the level and parent of its kind, also where a package is its own component. |
| `Mesh.ChildrenInvertParent` | mesh.go:52-76 | When a name stands for one file, the children of every node are exactly the nodes whose parent it is. |
| `Mesh.ResolveToLevel` | mesh.go:268-284 | The climb to the ancestor at a level, of at most ten steps. |
| `Mesh.ClimbIs` | mesh.go:268-284 | The climb ends at the first ancestor that is missing, at the level or without a parent, or after the given number of steps. |
| `Mesh.Hierarchy` | mesh.go:268-284 | From a symbol the climb gives the symbol, the file of the last symbol of that name, its package, and its component at the four levels. |
| `Mesh.OrderIndependent` | mesh.go:14-89 | Package and component depend neither on the order of the symbols nor on that of the component names. |
| `MeshAggregation.Aggregate` | mesh.go:93-120 | One edge for each crossed pair of ancestors in first-seen order, with the kind of the first edge and the summed weight. |
| `MeshAggregation.AggregateConserves` | mesh.go:93-120 | The pairs are distinct, a pair is present exactly when some edge crosses between the two ancestors, and the weights add up to those of exactly the crossing edges. |
| `MeshAggregation.AggregateIs` | mesh.go:93-120 | Each returned edge has the kind of the first edge and the weight of all edges whose ends climb to its ends, and the edges are in the order of those first edges. |
| `MeshAggregation.CrossesWhen` | mesh.go:98-103 | Between symbols of the mesh an edge crosses at package or component level exactly when their packages or components differ. |
| `Grouping.GroupsConserve` | mesh.go:104-119 | Summing by key loses no weight. |
| `WhatIf.ApplyDelete` | impact/what_if.go:135-141 | A new list without the edges that touch the name. |
| `WhatIf.ApplyRename` | impact/what_if.go:159-168 | Every end equal to the old name is renamed, in place. |
| `WhatIf.ApplyComposes` | impact/what_if.go:73-79 | One more delete or rename on the substituted edges is the substitution of one more move. |
| `WhatIf.DeduplicateEdges` | impact/what_if.go:193-216 | The list with equal keys merged into their first occurrence. |
| `WhatIf.DedupedRepresents` | impact/what_if.go:193-216 | A merged edge has the sum of the call sites and of the surface of its group, and the maximum of its weights. |
| `WhatIf.DedupedFirst` | impact/what_if.go:193-216 | A merged edge has the ends, name and protocol of the first edge between its ends. |
| `WhatIf.DedupedInOrder` | impact/what_if.go:193-216 | Merged edges stand in the order in which their ends are first seen. |
| `WhatIf.DedupedConserves` | impact/what_if.go:193-226 | Total call sites and surface are those of the edges that are not self-loops. |
| `WhatIf.RemoveSelfLoops` | impact/what_if.go:218-226 | The edges with different ends, in order. |
| `WhatIf.NoLoopsJoin` | impact/what_if.go:218-226 | Self-loops are dropped one by one: the result for a joined list is the joined result. |
| `WhatIf.AfterIsImage` | impact/what_if.go:72-88 | After any moves the edges are the images of the original ones under the one composed partial substitution, without self-loops: each pair once, with summed loads and the maximal weight. |
| `WhatIf.MutateEdges` | impact/what_if.go:69-85 | The mutated list, computed on a copy: the given edges stay as they are. |
| `WhatIf.ComputeWhatIf` | impact/what_if.go:47-125 | Removed and added edges, with (before minus removed) plus added equal to after; without moves the counts are those of the input. |
| `WhatIf.DistinctKeysCount` | impact/what_if.go:120 | The number of edges afterwards is the number of distinct pairs. |
| `WhatIf.UntouchedEdges` | impact/what_if.go:81-101 | Moves that touch no edge report exactly the original self-loops as removed, add nothing, and leave as many edges as there are distinct pairs without self-loops. |
| `RankFusion.Accumulate` | engine/embed.go:122-128 | Every listed id has the sum of its reciprocal ranks over all lists. |
| `RankFusion.ExchangeSort` | engine/embed.go:137-143 | The array is sorted in place by decreasing score and then by id, and is a permutation of what it was. |
| `RankFusion.Fuse` | engine/embed.go:121-149 | Every listed id exactly once, in strictly sorted order, whatever the iteration order of the score map. |
| `RankFusion.ListScoreAt` | engine/embed.go:122-128 | In a list without repetition the id at position p, from 0, has 1 / (61 + p). |
| `RankFusion.RankedIs` | engine/embed.go:137-148 | The order is by decreasing score, and for equal scores by the first difference of the ids. |
| `RankFusion.FusionIsUnique` | engine/embed.go:121-149 | There is only one such sequence, and it does not depend on the order of the lists. |
| `RankFusion.AgreementIsKept` | engine/embed.go:121-149 | If a stands before b in every list that has b, and no list repeats an id, then a precedes b. |
| `StringOrder.SmallerTotal` | engine/embed.go:139 | The order of ids is total. |
| `StringOrder.SmallerIs` | engine/embed.go:139 | One string is smaller than another exactly when at their first difference it ends or has the smaller character. |
| `StringOrder.SmallerTransitive` | engine/embed.go:139 | The order of ids is transitive. |
| `Pipelines.TypesOverlap` | pipeline.go:118-136 | The first return type that is not error and matches some parameter type, leading stars aside; not found exactly when there is none. |
| `Pipelines.FitsIs` | pipeline.go:118-141 | A return type fits when it is neither error nor *error and some parameter type is the same up to one star in front of one of the two. |
| `Pipelines.Index` | pipeline.go:25-39 | Call edges by source in order, and for each target the types of the last typed call edge into it. |
| `Pipelines.OneCallFrom` | pipeline.go:29-35 | A single call from a function to b is listed exactly when one call edge, and no other, leaves it, and leads to b. |
| `Pipelines.SigIs` | pipeline.go:36-38 | The signature of a function is that of the last call edge to it with types, and empty without one. |
| `Pipelines.NextIsOne` | pipeline.go:96-110 | A function has at most one next function and one type to it. |
| `Pipelines.BuildChain` | pipeline.go:78-114 | A chain of unvisited, distinct functions, each joined to the next by its only call and the type in between; it has one type more than joins exactly when it stopped before a visited function, and otherwise no function can follow. The walk terminates. |
| `Pipelines.DetectPipelines` | pipeline.go:17-74 | No function is in two chains; the reported chains are exactly the walked ones of the minimum length; every caller is in a walked chain. |
| `GoSignature.FindMatchingParen` | analyzer/lsp.go:540-554 | The first position from pos where the parenthesis count falls to zero, or -1. |
| `GoSignature.DepthCounts` | analyzer/lsp.go:540-601 | The depth of a text is its opening minus its closing brackets of the three kinds, and the parenthesis count the same for round ones. |
| `GoSignature.ClosedAfter` | analyzer/lsp.go:540-554 | A parenthesis opened before a matched body is closed right after it. |
| `GoSignature.SplitParams` | analyzer/lsp.go:582-601 | The pieces between the commas outside all brackets. |
| `GoSignature.JoinSplit` | analyzer/lsp.go:582-601 | For every string, joining the pieces with commas restores it. |
| `GoSignature.SplitAtComma` | analyzer/lsp.go:582-601 | A comma after balanced text separates, and both sides are split on their own. |
| `GoSignature.ExtractTypesFromParamList` | analyzer/lsp.go:557-579 | The last field of every piece that is not blank. |
| `GoSignature.TypesAreBlankFree` | analyzer/lsp.go:557-579 | For every input no extracted type is empty or has a blank in it. |
| `GoSignature.ParseGoSig` | analyzer/lsp.go:376-402 | Parameters between the first parenthesis and its match, results after it, with the error cases. |
| `GoSignature.Malformed` | analyzer/lsp.go:376-384 | Without an opening parenthesis, and when the first one is never closed, nothing is extracted. |
| `SignaturePrinting.ListComesBack` | analyzer/lsp.go:557-579 | Every printed list of nested types, with blanks or without, comes back as the last fields of its printed entries. |
| `SignaturePrinting.EntryComesBack` | analyzer/lsp.go:570-576 | Of an entry whose type has a blank only what follows the last blank of the type comes back, and all of the type otherwise. |
| `SignaturePrinting.ListRoundTrip` | analyzer/lsp.go:557-579 | A printed list of nested types, named or not, comes back if and only if no type has a blank. |
| `SignaturePrinting.SignatureRoundTrip` | analyzer/lsp.go:376-402 | Parsing a printed signature gives back exactly its parameter and result types, if and only if no type has a blank, for all function names without an opening parenthesis, all names free of brackets, commas and blanks, and all properly nested types. |
| `SignaturePrinting.BareResult` | analyzer/lsp.go:398-400 | A single result without parentheses comes back whole. |
| `SignaturePrinting.NoResults` | analyzer/lsp.go:388-391 | A printed signature with nothing but blanks after its parameters comes back with exactly its parameter types and no result, if and only if no parameter type has a blank. |
| `SignaturePrinting.ReceiverTaken` | analyzer/lsp.go:376-402 | With a receiver in front, the receiver is taken for the parameters and the rest for one result. |
| `CallPath.BfsCallPath` | engine/taint.go:137-171 | A shortest path over the followed edge kinds, empty exactly when the target is unreachable, and the single node when the ends are equal. |
| `CallPath.FlowIs` | engine/taint.go:138-145 | An edge is followed exactly when its kind is empty, contains call, or is data_flow or DATA_FLOWS. |
| `CallPath.Visit` | engine/taint.go:158-168 | Every queued path is a shortest path to its node. |
| `Partition.Peripheral` | graph/partition.go:37-45 | The start has the least degree. |
| `Partition.CuthillMcKee` | graph/partition.go:47-74 | The nodes reachable from the start, each once and by distance, however neighbours are sorted. |
| `Partition.ReverseInPlace` | graph/partition.go:84-86 | The array is reversed in place. |
| `Partition.Partition` | graph/partition.go:8-89 | Reversed, the result is the component of a node of least degree by distance, followed by the remaining nodes. |
| `Partition.ArrangedBackwards` | graph/partition.go:8-89 | The result is a permutation of the node set, also on disconnected graphs; the start comes last, its component fills the end of the list, and towards the end the distance to the start never grows. |

## Left out

- ImportDepth.ComputeDepths: takes the exact set of nodes on cycles as a parameter, because cycle detection is library code.
- Cycles.CollectCycles: takes the list of raw cycles as a parameter, because their enumeration is library code; that they are
  elementary and that their names are free of arrows is assumed, the second because an arrow lets another cycle have the same key
  (`Cycles.KeyIsExclusive`).
- Betweenness.BetweennessCentrality: stops before the normalisation factor; the seeded shuffle of a long source list is a parameter.
- CallWalkComplete.WalkComplete: asks for a depth of at least the number of symbols, because a symbol first met deep down is
  marked visited and not expanded again; below that only soundness holds
  (`CallWalk.NodesWithinDepth`, `CallWalk.EdgesWithinDepth`).
- CallWalkComplete.Unique: assumes that no two symbols share a name, because the walk marks visited symbols by bare name
  (symbol_pipeline.go:68-72) and keys nodes by package and name, so of same-named symbols only the first one entered is expanded;
  soundness (`CallWalk.NodesWithinDepth`) and termination (`CallWalkTermination.WalkEnds`) hold without it.
- Mesh.Hierarchy: asks for named packages and components and for keys that do not coincide (`Mesh.NoClash`), because the climb
  stops at an empty parent and one node cannot play two parts.
- Mesh.ChildrenInvertParent: asks for one file per symbol name, because otherwise both files keep the name as a child.
- Mesh.BuildMesh: takes the component names as sorted by the library, and leaves edge weights alone (ClassifyEdgeWeight).
- MeshMetric.Neighborhood: returns the set before it is sorted.
- Partition.Partition: the two library sorts are parameters that permute, so the order by degree among the neighbours of a node
  is left open.
- Cycles.DeduplicateCycles: returns the cycles before the final sort by key.
- Pipelines.DetectPipelines: takes the roots in any order and returns the chains before they are sorted by length.
- ImportDepth.ComputeImportDirection: returns the violations before they are sorted and the summary is written.
- WhatIf.ComputeWhatIf: models the edge side; services, fan-in and cycle differences are left out, because mergeServices writes
  to the last appended entry and keeps every service only when the two merged ones are adjacent.
- GraphCache.Engine.GetSymbolGraph: one caller at a time; waiting, errors and the second cache lookup of the shared build are left
  out, and a built graph is a parameter. Waiters and their flights are modelled in `Flight`, the sharing of a running build by key
  in `SharedBuilds`.
- The deadline of a shared build; a caller's own deadline is a release at any time (`SharedBuilds.Possible`).
- Racer.Racer.Race: cancellation is an abstract step that ends a race; timeouts, elapsed times and logging are left out.
- GoSignature.ParseGoSig: strings are sequences of code points, not bytes; brackets, commas and blanks are treated alike.
- Floating-point rounding: path counts, deltas, weights and fused scores are real numbers.
- Integer width: counts and weights are unbounded integers.
- Maps that a function receives and updates (visited maps, scores, the mesh node map) are values passed in and out, so aliasing of
  such maps is not captured.
- Parsing of TypeScript, Python, Rust and C signatures, and the dispatch on the signature prefix.
- Node overlays, weighted neighbourhoods, boundaries and circuits of the mesh.
- FindIslands, FindConvergence, TraceScenario, Probe and entry-point detection are compositions of the searches and would only add
  easy members.
- Tree-sitter and go/ast extraction, language-server processes, HTTP embedding, cache files, rendering and clinic rules.
