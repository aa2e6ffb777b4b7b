# Models and proofs for the Dynamics 365 automation engines

Each file models one engine of the repository and proves what the engine is for. Loops and
in-place updates are methods proved against specification functions; the properties of those
functions are lemmas. `f32`/`f64` values are `real`, clock readings are natural numbers, and a
hash map is a Dafny map whose iteration order is arbitrary (a choice from a set).

| file | engine |
|---|---|
| `DocTree`, `DocAssembly`, `DocPaths`, `DocLeaves`, `DocHeadings`, `DocLines` | document tree: heading scan, the text of heading lines, pointer-stack assembly, dotted paths and lookup |
| `GraphStore`, `Graph` | entity graph, its symmetric adjacency, and the index form of it |
| `PprStep`, `Ppr`, `Bfs`, `PprSearch` | personalised PageRank, hop distances, and the whole search over the stored graph |
| `Community`, `ModularityWeight`, `Sorting`, `Commons` | community detection, grouping and renumbering; shared sorts, options and text helpers |
| `Rpc`, `RpcInvariant`, `RpcRuns`, `RpcWaiters`, `RpcFacts`, `RpcElicitations`, `RpcAnswers`, `PendingTable` | the two-way JSON-RPC link as interleaved steps, and one end's pending table as an object |
| `Chunker`, `Robots`, `RobotsLines`, `SeriesKey`, `Metrics` | text splitting, robots.txt and the text of its lines, metric keys and histograms |
| `Fusion` | reciprocal rank fusion |
| `Infolog`, `Transaction` | message walk and fail-closed commit decision |
| `MetadataCache`, `Retry`, `Breaker`, `RateLimiter`, `Memory` | caching, resilience and memory tiers |

Results worth knowing before changing the code:

- **Document tree.** The stack is always the rightmost spine, so a push moves no stacked node. The
  safety comment at `doc_tree.rs:207-211` gives another reason (that `roots` is not pushed again
  while pointers live), which is not what makes the code safe: `roots` is pushed repeatedly, but
  only when the stack is empty. A section's byte range ends at the next heading of any depth, so a
  parent's range never contains its children's.
- **PageRank.** The scores weigh 1 if and only if no existing seed is named twice; a repeated seed
  loses mass, because the share is divided by the count but assigned once.
- **Chunker.** Splitting works for every body and overlap if and only if the target is above 200.
- **Rank fusion.** Chunks in both rankings come first for all rankings of given lengths if and only
  if the last two places together beat one first place; for equal lengths that means shorter than
  `k + 2`.
- **Circuit breaker.** A call is admitted exactly when there are fewer failures in a row than the
  threshold or the latest is old enough. An opened breaker stays shut for its duration if and only if
  no call is in flight when it opens: a success still in flight resets the count. With threshold 0 the
  state invariant already fails.
- **JSON-RPC.** Every response finds its own caller, but not every caller returns. A waiting client
  call can never return if and only if its waiter was inserted after the client reader's final clear.
  A waiting elicitation can never return if and only if its message is lost, or a reader or an outbox
  still ahead of it has closed: the server clears no waiters. A waiting client call can still be
  answered if and only if the reader runs, its message is not lost and has everything ahead of it open,
  and no handler holds it that cannot send or waits for an elicitation that hangs or will once sent.
  The only entries left behind by returned
  callers are those of client calls whose send failed. The two counters start far apart
  (`elicit.rs:65-67`); no proof needs that.
- **Metadata cache.** It is transparent over an unchanging client if and only if caching is off, the
  client is down, or the client finds each record also under the name the record carries.
- **Metrics.** Observing on a counter's or gauge's key panics with the lock held, so every later call
  on the registry panics too.
- **Writes.** An error below the eighth level, or inside another reported row, does not stop a commit.
- **Working memory.** `WorkingMemory::default()` has capacity 0 and grows without bound.

## Model

| member | source | states |
|---|---|---|
| DocAssembly.PopToAncestor | crates/d365-automate-kb/src/doc_tree.rs:196-204 | popping stops at the last entry of strictly smaller depth |
| DocAssembly.Assemble | crates/d365-automate-kb/src/doc_tree.rs:174-222 | the loop's tree, read in pre-order, is the section list, each with its nearest shallower predecessor as parent; the reported depth is the maximum |
| DocAssembly.RunIsOutline | crates/d365-automate-kb/src/doc_tree.rs:174-222 | for every section list, pre-order with parents equals the independently defined outline |
| DocAssembly.FlatDetermines | crates/d365-automate-kb/src/doc_tree.rs:174-222 | that outline determines the tree: two forests with the same one have the same shape |
| DocTree.ShallowerIsNearest | crates/d365-automate-kb/src/doc_tree.rs:196-204 | the parent is the nearest earlier section of strictly smaller depth |
| DocTree.WithParentsAt | crates/d365-automate-kb/src/doc_tree.rs:174-222 | entry i of the outline is section i with that parent |
| DocAssembly.StepIsSafe | crates/d365-automate-kb/src/doc_tree.rs:196-222 | in every invariant state the pointer a step dereferences addresses a node, and the invariant is kept |
| DocAssembly.EveryDereferenceIsLive | crates/d365-automate-kb/src/doc_tree.rs:196-222 | in every run, each pointer the code dereferences is live and no stacked pointer is invalidated by the push that follows |
| DocAssembly.PushMovesNoStackedNode | crates/d365-automate-kb/src/doc_tree.rs:205-221 | growing a vector moves none of the nodes still on the stack |
| DocAssembly.RootsGrowOnlyWithoutAncestor | crates/d365-automate-kb/src/doc_tree.rs:205-221 | `roots` is pushed exactly when no ancestor exists, that is when the stack is empty |
| DocTree.PushOnSpineGrows | crates/d365-automate-kb/src/doc_tree.rs:196-222 | a push at level k of the rightmost spine adds one leaf there, and the leaf's path is the new spine |
| DocAssembly.PoppingFindsParent | crates/d365-automate-kb/src/doc_tree.rs:196-204 | what popping leaves on top is the nearest shallower section |
| DocAssembly.MaxDepthIsMaximum | crates/d365-automate-kb/src/doc_tree.rs:178-181 | the reported depth is attained and bounds every section's depth |
| DocPaths.AssignPaths | crates/d365-automate-kb/src/doc_tree.rs:251-257 | every node gets its parent's path, a dot and its one-based position |
| DocPaths.DocumentPath | crates/d365-automate-kb/src/doc_tree.rs:224-257 | the path of the node at a position list is that list, written with dots under the root |
| Commons.DecimalDenotes | crates/d365-automate-kb/src/doc_tree.rs:224-257 | each position is written as the decimal numeral that denotes it, without leading zeros |
| DocPaths.DottedInjective | crates/d365-automate-kb/src/doc_tree.rs:224-257 | different positions have different paths as strings |
| DocPaths.FindIsSound | crates/d365-automate-kb/src/doc_tree.rs:76-86 | whatever `find` returns is a node of the tree with that path |
| DocPaths.FindFindsSome | crates/d365-automate-kb/src/doc_tree.rs:76-86 | a path borne by some node is found |
| DocPaths.FindIsExact | crates/d365-automate-kb/src/doc_tree.rs:76-86 | on an assigned tree `find` of a node's path gives that very node, and any other string gives none |
| DocPaths.AssignKeepsShape | crates/d365-automate-kb/src/doc_tree.rs:251-257 | assigning paths changes nothing else in the tree |
| DocHeadings.ParseNumbered | crates/d365-automate-kb/src/doc_tree.rs:412-447 | the cursor loop equals the recursive reading of groups of digits and dots |
| DocHeadings.NumberedLineShape | crates/d365-automate-kb/src/doc_tree.rs:412-447 | a line is a numbered heading exactly when it is a dotted numbering followed by a title, with the depth counted from its groups |
| DocHeadings.DetectHeadingLines | crates/d365-automate-kb/src/doc_tree.rs:305-331 | the scan returns the headings of the lines in order |
| DocHeadings.HeadingsAreHeadingLines | crates/d365-automate-kb/src/doc_tree.rs:305-410 | a heading is reported exactly when it starts a line and that line parses as one |
| DocHeadings.HeadingsWellOrdered | crates/d365-automate-kb/src/doc_tree.rs:305-331 | marker and body positions increase and stay inside the body |
| DocLines.AtxLineShape | crates/d365-automate-kb/src/doc_tree.rs:338-367 | a line is an ATX heading of level d exactly when it is blanks, d hashes with d from 1 to 6, a space or tab, and a title that is the trimmed rest without its closing hashes and the blanks before them |
| DocLines.MarkerLineShape | crates/d365-automate-kb/src/doc_tree.rs:374-410 | a line is a plain-text heading exactly when, behind its leading blanks, it is `SECTION:` with a title (level 1), or else a dotted numbering with one |
| DocLines.HeadingsAre | crates/d365-automate-kb/src/doc_tree.rs:294-331 | the headings of a body are exactly its ATX heading lines if it has any, and otherwise exactly its plain-text ones |
| DocHeadings.PrepareSections | crates/d365-automate-kb/src/doc_tree.rs:145-172 | the loop cuts the body at the headings |
| DocHeadings.SectionsTile | crates/d365-automate-kb/src/doc_tree.rs:145-172 | section ranges tile the body from the first heading to the end |
| DocHeadings.SectionOfHeading | crates/d365-automate-kb/src/doc_tree.rs:145-172 | section k has heading k's depth, title and positions |
| DocHeadings.ChildRangeOutsideParent | crates/d365-automate-kb/src/doc_tree.rs:159-172 | a child's range starts at or after the end of its parent's |
| DocHeadings.BuildDocumentTree | crates/d365-automate-kb/src/doc_tree.rs:120-249 | the whole build computes the specified tree, leaf count and depth for any body |
| DocHeadings.DocumentTreeIsOutline | crates/d365-automate-kb/src/doc_tree.rs:120-249 | the built tree in pre-order is the heading list with nearest shallower parents, and its ranges tile |
| DocLeaves.CountLeavesTotal | crates/d365-automate-kb/src/doc_tree.rs:259-273 | the recursive counter gives the number of childless nodes |
| DocLeaves.LeavesOfOutline | crates/d365-automate-kb/src/doc_tree.rs:259-273 | that number is the number of sections not followed by a deeper one, and at least 1 |
| DocHeadings.BuiltTreeFinds | crates/d365-automate-kb/src/doc_tree.rs:76-257 | on the tree built from any body, `find` is exact |
| GraphStore.InMemoryGraph.AddEdge | crates/d365-automate-graph/src/store.rs:59-69 | both indexes and the edge list agree afterwards, and only the weight between the edge's ends changes |
| GraphStore.InMemoryGraph.AddEntity | crates/d365-automate-graph/src/store.rs:55-57 | the entity is stored under its id and the edges stay |
| GraphStore.InMemoryGraph.UndirectedNeighbours | crates/d365-automate-graph/src/store.rs:92-101 | one entry per adjacent node, with the summed weight of the edges between the two in both directions |
| GraphStore.BetweenIsSymmetric | crates/d365-automate-graph/src/store.rs:92-101 | the adjacency is symmetric |
| GraphStore.ListsHoldBetween | crates/d365-automate-graph/src/store.rs:92-101 | outgoing and incoming lists together hold exactly the weight between two nodes, a self-loop twice |
| GraphStore.DegreesSumToTwiceWeight | crates/d365-automate-graph/src/store.rs:92-101 | with declared ends the degrees add up to twice the total weight |
| PprStep.StepKeepsDistribution | crates/d365-automate-graph/src/ppr.rs:108-129 | a step keeps scores non-negative and the mass exactly 1, dangling nodes included |
| PprStep.StepContracts | crates/d365-automate-graph/src/ppr.rs:108-131 | a step brings any two score vectors closer by the factor 1 - alpha in L1 |
| Ppr.DeltasShrink | crates/d365-automate-graph/src/ppr.rs:105-136 | each delta of a run is at most 1 - alpha times the one before, repeated seeds included |
| Ppr.DeltasShrinkGeometrically | crates/d365-automate-graph/src/ppr.rs:105-136 | so the k-th is at most 2 (1 - alpha)^k |
| Ppr.StopsBy | crates/d365-automate-graph/src/ppr.rs:105-136 | once that bound is below the tolerance, no run goes beyond iteration k |
| Ppr.StationaryIsNear | crates/d365-automate-graph/src/ppr.rs:105-136 | alpha times the distance to any vector the iteration leaves alone is at most 1 - alpha times the last delta |
| Ppr.TeleportMass | crates/d365-automate-graph/src/ppr.rs:97-102 | the start vector weighs 1 exactly when the seeds are distinct |
| Ppr.MassIsOneIffSeedsDistinct | crates/d365-automate-graph/src/ppr.rs:97-136 | after every number of iterations the mass is 1 if and only if no seed is repeated |
| Ppr.SeedVector | crates/d365-automate-graph/src/ppr.rs:97-100 | the loop sets the share at the seeds and nothing elsewhere |
| Ppr.DistributeAlongEdges | crates/d365-automate-graph/src/ppr.rs:109-117 | the edge loops add up, for each node, the flow along all arcs into it |
| Ppr.PowerStep | crates/d365-automate-graph/src/ppr.rs:108-129 | the nested loops compute the matrix-form step |
| Ppr.PersonalisedPagerank | crates/d365-automate-graph/src/ppr.rs:97-136 | the result is the iterate reached, and it stops at the first small delta or at the limit |
| Bfs.DistanceIsFirstLevel | crates/d365-automate-graph/src/ppr.rs:162-185 | the shortest walk length is the first level that contains the node |
| Bfs.FirstLevelIsDistance | crates/d365-automate-graph/src/ppr.rs:162-185 | and conversely |
| Bfs.HopAtIsDistance | crates/d365-automate-graph/src/ppr.rs:162-185 | the table holds the exact minimum distance within the budget, and no distance within it exists elsewhere |
| Bfs.StableLevels | crates/d365-automate-graph/src/ppr.rs:170-183 | once a level adds nothing, stopping early loses nothing |
| Bfs.VisitFrontier | crates/d365-automate-graph/src/ppr.rs:171-183 | one round marks exactly the next level and returns it as the frontier |
| Bfs.BfsHops | crates/d365-automate-graph/src/ppr.rs:162-185 | the search returns that table for every graph and seed list |
| PprSearch.BuildIndex | crates/d365-automate-graph/src/ppr.rs:68-84 | declared nodes are listed once, and each row has one arc per declared neighbour with the stored weight |
| PprSearch.RowToIsBetween | crates/d365-automate-graph/src/ppr.rs:72-84 | a row carries to each node the stored weight between the two |
| PprSearch.IndexIsSymmetric | crates/d365-automate-graph/src/ppr.rs:72-84 | weights and arcs of the index run both ways |
| PprSearch.KnownStandsAt | crates/d365-automate-graph/src/ppr.rs:86-96 | the known seeds are the nodes named at exactly those positions of the caller's list that name a node, in order, each position once |
| PprSearch.KnownDistinctIff | crates/d365-automate-graph/src/ppr.rs:86-96 | they are distinct exactly when no node of the graph is named at two positions |
| PprSearch.PersonalisedPagerank | crates/d365-automate-graph/src/ppr.rs:59-159 | without a known seed there is no answer; otherwise the iteration ends at the first small delta or the limit, and every node is ranked once with its score and hop distance, by non-increasing score |
| PprSearch.SearchPromises | crates/d365-automate-graph/src/ppr.rs:59-202 | on the stored graph, in terms of the caller's list: every named node starts with one share, the whole divided by the number of positions that name a node; scores weigh 1 if and only if no node is named at two positions, and never more; a node passes the hop filter exactly when its distance is within the budget, or the budget is `u32::MAX` |
| PprSearch.Surface | crates/d365-automate-graph/src/ppr.rs:188-202 | what is surfaced is the first topK of the ranked hits in reach, in order |
| Community.ChooseCommunity | crates/d365-automate-graph/src/community.rs:84-130 | the choice is the neighbouring community of greatest positive gain, the smallest on a tie, or to stay |
| Community.BestMoveIsUnique | crates/d365-automate-graph/src/community.rs:114-130 | that choice does not depend on map order |
| Community.GainIs | crates/d365-automate-graph/src/community.rs:123-125 | times half the squared total, the gain is the weight into the community times the total, less half the product of the two degrees |
| Community.MoveAddsNoCommunity | crates/d365-automate-graph/src/community.rs:131-134 | a move never brings a community into use |
| Community.Pass | crates/d365-automate-graph/src/community.rs:82-136 | a pass gives each node in order its best move against what the earlier ones left; the number of communities never grows; no move means locally optimal |
| Community.PassIsDetermined | crates/d365-automate-graph/src/community.rs:82-136 | the membership a pass starts from determines everything it does |
| Community.RunIsDetermined | crates/d365-automate-graph/src/community.rs:46-136 | the graph determines every pass and the membership the passes end with |
| Community.BuildCommunities | crates/d365-automate-graph/src/community.rs:146-173 | one entry per community in use, with exactly its members, sorted |
| Community.Renumber | crates/d365-automate-graph/src/community.rs:175-189 | ids become dense by non-increasing size, and membership is rewritten to match |
| Community.DetectCommunities | crates/d365-automate-graph/src/community.rs:45-144 | passes run until one moves nothing or eight are done; with weight the result is a partition into dense ids that groups nodes as the passes left them |
| Community.ForNode | crates/d365-automate-graph/src/community.rs:35-40 | the search returns the first community with the node's id; on a detected result every declared node has one and no other community lists it |
| ModularityWeight.HalfDegreeSumIsTotalWeight | crates/d365-automate-graph/src/community.rs:55-66 | the divisor of the gain is the total weight of the stored edges |
| Rpc.StepConserves | crates/mcp-server/src/server.rs:353-397 | every step keeps each request copy in exactly one account: live, delivered or lost |
| RpcInvariant.StepKeepsInvariant | crates/mcp-client/src/lib.rs:100-140 | every step of either end keeps conservation, direction, both tables and nesting |
| RpcRuns.RunKeepsInvariant | crates/mcp-client/src/lib.rs:100-140 | so every reachable state satisfies them, in every interleaving |
| RpcRuns.AtMostOneCopy | crates/mcp-client/src/lib.rs:386-411 | each id has at most one live copy among outboxes, wires, handlers and responses |
| RpcInvariant.ResponseMeetsOwnWaiter | crates/mcp-client/src/lib.rs:103-117 | the waiter a response takes belongs to the call it answers |
| RpcRuns.ResolvedByOwnResponse | crates/mcp-client/src/lib.rs:386-411 | a caller is woken only by the response to its own request, which was delivered once |
| RpcRuns.ResolvedForGood | crates/mcp-client/src/lib.rs:386-411 | once woken a caller is never touched again |
| RpcRuns.ElicitationIsNested | crates/mcp-server/src/elicit.rs:91-150 | while an elicitation is in flight the tool call that started it is held by its suspended handler and unanswered |
| RpcWaiters.HangsIffLate | crates/mcp-client/src/lib.rs:100-140 | a waiting client call never returns, in any continuation of any run, if and only if its waiter was inserted after the client reader's final clear |
| RpcElicitations.ElicitationHangsIffDoomed | crates/mcp-server/src/elicit.rs:91-150 | a waiting elicitation never returns, in any continuation of any run, if and only if its message is lost, or a reader or an outbox still ahead of it has closed |
| RpcElicitations.BringsBack | crates/mcp-server/src/server.rs:326-382 | from any place on its way, with everything ahead open, some continuation delivers the elicitation's answer |
| RpcElicitations.DoomedNeverReturns | crates/mcp-server/src/server.rs:326-382 | what is doomed stays doomed, and its caller waiting, through every continuation |
| RpcElicitations.ElicitationCanHang | crates/mcp-server/src/server.rs:343-351 | every new elicitation of a running handler can come to hang by the writer's end alone, with no reader ended |
| RpcFacts.FinishAnswers | crates/mcp-server/src/server.rs:353-367 | a handler that finishes with its outbox open adds exactly the response to its own request, at the end, and loses nothing; the same at the client |
| RpcFacts.StepBooks | crates/mcp-server/src/server.rs:320-397 | in every step the accounts only grow, and a copy becomes delivered exactly when its answer is taken off its caller's queue |
| RpcAnswers.AnswerableIff | crates/mcp-server/src/server.rs:320-397 | in every reachable state some continuation wakes a waiting client call with its own answer if and only if the client reads, the message is not lost and has no closed reader or outbox ahead of it, and no handler holds it that cannot send or waits for a stuck elicitation |
| RpcAnswers.BringsAnswer | crates/mcp-server/src/server.rs:320-397 | from any place of the request or its answer, with everything ahead open, some continuation delivers the answer while the client reads |
| RpcAnswers.FreesHandler | crates/mcp-server/src/elicit.rs:91-150 | a suspended handler whose elicitation is not stuck can be brought back to work with all ends open |
| RpcAnswers.UnanswerableForGood | crates/mcp-server/src/server.rs:320-397 | what is unanswerable stays so, and undelivered, through every continuation |
| RpcAnswers.NewCallIff | crates/mcp-client/src/lib.rs:386-411 | in every reachable state a call that has not begun can be answered if and only if both outboxes and both readers are open |
| RpcAnswers.AnyEndStopsNewCalls | crates/mcp-client/src/lib.rs:100-147 | after the end of any reader or writer, no call that has not begun can ever be answered |
| RpcAnswers.EndCloses | crates/mcp-server/src/server.rs:326-351 | a writer's end closes its outbox, a reader's end its reader, and each leaves the other three as they are |
| RpcAnswers.StartIsOpen | crates/mcp-client/src/lib.rs:95-165 | the link starts with all four open, no calls, and the counters at 1 and 1000000 |
| RpcWaiters.WaitingIffLate | crates/mcp-client/src/lib.rs:386-411 | once the reader has ended, of the calls that were sent exactly those late ones still wait; all others have returned |
| RpcWaiters.CallAfterEofCanHang | crates/mcp-client/src/lib.rs:386-411 | from every reachable state after the reader's end with an open outbox, each new call can come to hang |
| RpcWaiters.ClientEntryIff | crates/mcp-client/src/lib.rs:386-411 | in every reachable state the client table has an entry exactly for the calls under way or failed whose waiter no clear has dropped |
| RpcWaiters.EntryLeftBehindIff | crates/mcp-client/src/lib.rs:389-397 | a call that returned, at either end, still has an entry exactly when it is a client call whose send failed and the reader still runs or had ended before the insertion |
| PendingTables.PendingTable.TakeId | crates/mcp-client/src/lib.rs:387 | the new id differs from every earlier one and from every pending one |
| PendingTables.PendingTable.Insert | crates/mcp-client/src/lib.rs:389-392 | exactly the caller's waiter is added under its id |
| PendingTables.PendingTable.GiveUp | crates/mcp-server/src/elicit.rs:124-137 | a failed send withdraws the waiter on the server and leaves it on the client |
| PendingTables.PendingTable.DeliverResponse | crates/mcp-server/src/elicit.rs:154-169 | any response is claimed exactly when its id is pending, and an unclaimed one changes nothing; the response to a sent request wakes its own caller |
| PendingTables.PendingTable.DropAll | crates/mcp-client/src/lib.rs:138-139 | the final clear leaves no entry and no waiting caller |
| Chunker.BoundaryIsNear | crates/d365-automate-ingest/src/chunker.rs:106-109 | in UTF-8 the next character boundary is at most three bytes on |
| Chunker.FindSentenceEnd | crates/d365-automate-ingest/src/chunker.rs:129-142 | the last sentence end in the window, if any |
| Chunker.FindSpace | crates/d365-automate-ingest/src/chunker.rs:169-183 | the last blank within 200 bytes before the limit, if any |
| Chunker.BoundaryIsCharStart | crates/d365-automate-ingest/src/chunker.rs:106-109 | in UTF-8 the boundaries are exactly the positions reached by reading one character after the other, and the end |
| Chunker.AimIs | crates/d365-automate-ingest/src/chunker.rs:95-105 | a slice aims at the last sentence end of its second half within 200 bytes of the limit, else at the last blank within 200 bytes, else at the limit |
| Chunker.CutEndIs | crates/d365-automate-ingest/src/chunker.rs:106-109 | it ends at the first boundary from there on |
| Chunker.NextStartIs | crates/d365-automate-ingest/src/chunker.rs:121-125 | the next slice starts at the first boundary that advances and repeats at most `overlap` bytes |
| Chunker.TrimKeepsCore | crates/d365-automate-ingest/src/chunker.rs:111-115 | a piece is its slice without the blanks at both ends, and neither begins nor ends with one |
| Chunker.SplitText | crates/d365-automate-ingest/src/chunker.rs:89-127 | the cursor loop returns the trimmed slices of the specified windows, or fails exactly when they do |
| Chunker.LargeTargetSplits | crates/d365-automate-ingest/src/chunker.rs:89-127 | above 200 the windows cover every byte, cut at character boundaries, overlap by at most `overlap` and are at most target + 3 long |
| Chunker.SmallTargetFails | crates/d365-automate-ingest/src/chunker.rs:169-183 | for every target up to 200 a body of letters and one blank that does not split well |
| Chunker.SplitsWellIffTargetAbove200 | crates/d365-automate-ingest/src/chunker.rs:89-183 | all bodies and overlaps split well if and only if the target is above 200 |
| Robots.Parse | crates/d365-automate-ingest/src/robots.rs:44-92 | from the file's text, each agent has exactly the rules, in file order, of the groups whose run of user-agent lines names it |
| Robots.CommentIsIgnored | crates/d365-automate-ingest/src/robots.rs:139-144 | a comment changes nothing about the line it ends |
| RobotsLines.LineMeans | crates/d365-automate-ingest/src/robots.rs:50-88 | before its comment, the word ahead of the first colon, trimmed and lowered, decides whether a line is a user-agent, allow, disallow or crawl-delay line for the trimmed value, or is skipped |
| RobotsLines.NoColonIsSkipped | crates/d365-automate-ingest/src/robots.rs:50-58 | a line without a colon before its comment is skipped |
| RobotsLines.FirstLine | crates/d365-automate-ingest/src/robots.rs:50 | a text is cut at line feeds, and a carriage return before one is dropped |
| Robots.ApplyRule | crates/d365-automate-ingest/src/robots.rs:69-87 | a rule line goes to every agent of the run, once per mention, and to no other |
| Robots.RunNamesHeads | crates/d365-automate-ingest/src/robots.rs:59-68 | the agents of a line are those of the user-agent lines heading its group (section 2.2.1 of RFC 9309) |
| RobotsLines.RulesAre | crates/d365-automate-ingest/src/robots.rs:59-88 | an agent's allow and disallow rules are exactly the non-empty values of the allow and disallow lines of the groups it heads |
| RobotsLines.RulesAreValues | crates/d365-automate-ingest/src/robots.rs:69-75 | in file order, once per mention of the agent |
| RobotsLines.DelayIsLast | crates/d365-automate-ingest/src/robots.rs:76-83 | its crawl delay is that of the last line of those groups that gives a valid one |
| Robots.MatchingGroup | crates/d365-automate-ingest/src/robots.rs:115-136 | exact agent, else the longest agent that is a prefix, else `*` |
| Robots.ChoiceIsUnique | crates/d365-automate-ingest/src/robots.rs:115-136 | the chosen group does not depend on map order |
| RobotsLines.ChosenIs | crates/d365-automate-ingest/src/robots.rs:115-136 | the chosen agent is the crawler's own name, else the longest other name that its name begins with, else the star |
| Robots.LongestPrefixIs | crates/d365-automate-ingest/src/robots.rs:146-153 | the length of the longest matching rule, if one matches |
| Robots.DisallowedIffBlocked | crates/d365-automate-ingest/src/robots.rs:95-107 | disallowed exactly when a matching disallow is strictly longer than every matching allow (section 2.2.2 of RFC 9309) |
| Robots.IsAllowed | crates/d365-automate-ingest/src/robots.rs:95-107 | the decision is that of the chosen group, and allowed without one |
| Robots.Check | crates/d365-automate-ingest/src/robots.rs:44-153 | from the file's text to the decision: blocked exactly by such a disallow among the chosen agent's rules |
| RobotsLines.DisallowBlocksPrefix | crates/d365-automate-ingest/src/robots.rs:44-153 | the file that disallows p to every crawler blocks exactly the paths that begin with p, for every trimmed, non-empty p without a line feed or hash |
| Robots.ChosenAgentUnique | crates/d365-automate-ingest/src/robots.rs:115-136 | from the file's lines the chosen agent is unique |
| Commons.OccurrencesOfDistinct | crates/d365-automate-ingest/src/robots.rs:69-87 | a run naming an agent once gives it each rule once |
| Robots.RepeatedRule | crates/d365-automate-ingest/src/robots.rs:69-87 | a run naming an agent n times gives it the rule n times |
| SeriesKey.EscapeIsPerCharacter | crates/d365-automate-observability/src/metrics.rs:304-308 | three successive replacements equal one per-character escape |
| SeriesKey.QuotedInjective | crates/d365-automate-observability/src/metrics.rs:304-308 | an escaped, quoted value can be read back whatever follows it |
| SeriesKey.SortedEqualIffSame | crates/d365-automate-observability/src/metrics.rs:276-287 | sorting makes the label order irrelevant and loses no label |
| SeriesKey.LessIs | crates/d365-automate-observability/src/metrics.rs:280-281 | the order is that of the first differing character, a proper prefix first |
| SeriesKey.JoinInjective | crates/d365-automate-observability/src/metrics.rs:276-287 | the joined labels determine the label list |
| SeriesKey.NamesShareIff | crates/d365-automate-observability/src/metrics.rs:276-287 | two metric names share a key, for some labels, if and only if they are equal or one goes on with a brace where the other ends |
| SeriesKey.KeyIdentifiesSeries | crates/d365-automate-observability/src/metrics.rs:276-308 | for names that do not clash so, and distinct label names with no equals sign before a quote, keys are equal exactly when name and label set are |
| SeriesKey.UncleanNamesCollide | crates/d365-automate-observability/src/metrics.rs:276-287 | a witness for each condition: a brace in a metric name, and an equals sign and a quote in a label name |
| Metrics.Place | crates/d365-automate-observability/src/metrics.rs:154-170 | exactly the buckets whose bound is not below the value are raised, and the last always |
| Metrics.NewBounds | crates/d365-automate-observability/src/metrics.rs:17-31 | a new histogram has the thirteen default bounds, from half a millisecond to thirty seconds |
| Metrics.CountsAreCumulative | crates/d365-automate-observability/src/metrics.rs:154-170 | counts never decrease along the buckets and the last equals the number of observations |
| Metrics.Registry.AddCounter | crates/d365-automate-observability/src/metrics.rs:107-119 | whatever kind the key has, its scalar grows by the amount and nothing else changes; a poisoned registry panics |
| Metrics.Registry.SetGauge | crates/d365-automate-observability/src/metrics.rs:121-133 | whatever kind the key has, its scalar takes the value and nothing else changes; a poisoned registry panics |
| Metrics.Registry.ObserveHistogram | crates/d365-automate-observability/src/metrics.rs:137-171 | bucket i counts the observations at most its bound, over everything observed so far; it panics, and poisons the registry, exactly when the key is a counter's or a gauge's |
| Fusion.ReciprocalRankFusion | crates/d365-automate-rag/src/lib.rs:330-368 | before the cut the ids are exactly the union, each once, scored by its summed reciprocal ranks and sorted; the text is the dense hit's where both have one |
| Fusion.ScoreAt | crates/d365-automate-rag/src/lib.rs:337-353 | with distinct ids a list contributes the reciprocal of the chunk's rank |
| Fusion.ShareIs | crates/d365-automate-rag/src/lib.rs:337-353 | the share of a rank times k plus the rank, counted from one, is 1 |
| Fusion.RankOverlap | crates/d365-automate-rag/src/lib.rs:292-302 | with distinct sparse ids the count is the number of chunks in both lists |
| Fusion.ConsensusFirst | crates/d365-automate-rag/src/lib.rs:330-368 | with lists of at most k + 1 hits the result starts with exactly the chunks in both rankings, when the cut leaves room |
| Fusion.ConsensusWinsIff | crates/d365-automate-rag/src/lib.rs:330-368 | for given lengths chunks in both always win if and only if the last two places beat one first place |
| Fusion.EqualLengthsMargin | crates/d365-automate-rag/src/lib.rs:330-368 | for equal lengths that holds exactly below k + 2 |
| Infolog.FailsUnlessBenign | crates/d365-automate-odata/src/infolog.rs:30-49 | a severity text fails exactly when, trimmed and lowered, it is none of the benign words |
| Infolog.SeverityIs | crates/d365-automate-odata/src/infolog.rs:30-41 | each severity with exactly its words, whatever their case and padding |
| Commons.TrimIs | crates/d365-automate-odata/src/infolog.rs:34 | a trimmed text is the one without blanks at its ends that stands in the text between blanks |
| Infolog.RowFailsIff | crates/d365-automate-odata/src/infolog.rs:103-137 | a row that is no error payload fails exactly when the first of its four severity keys to hold a string or number holds no benign word, or none holds one |
| Infolog.RowSays | crates/d365-automate-odata/src/infolog.rs:103-137 | its severity, code, text, field and environment are each the text of the first of their keys that holds one |
| Infolog.ErrorSays | crates/d365-automate-odata/src/infolog.rs:85-102 | an error payload's message is an error with the code, text and target of its error object |
| Infolog.RowIs | crates/d365-automate-odata/src/infolog.rs:104-112 | a row is an object with a severity key and a message key |
| Infolog.FirstStrIs | crates/d365-automate-odata/src/infolog.rs:150-162 | the text found is that of the first key, in the given order, that holds a string or number |
| Infolog.Walk | crates/d365-automate-odata/src/infolog.rs:81-137 | the accumulating walk appends the messages below a value in document order |
| Infolog.ParseInfolog | crates/d365-automate-odata/src/infolog.rs:75-79 | a message is returned exactly when some site carries it, and a failing one exactly when a failing site exists |
| Infolog.MessagesAreSites | crates/d365-automate-odata/src/infolog.rs:81-137 | sites are the error payloads and rows at most eight levels down and not inside another one |
| Infolog.FailureIffSite | crates/d365-automate-odata/src/infolog.rs:81-137 | the walk reports a failure exactly when a failing site exists |
| Transaction.ExecuteWriteOperation | crates/d365-automate-odata/src/transaction.rs:66-126 | committed exactly in write mode, outside `$batch`, after a successful call whose answer has a site and no failing one; always the negation of rolled back; refused writes are never submitted |
| Transaction.ConfirmsIffMessages | crates/d365-automate-odata/src/transaction.rs:86-126 | the two tests on the message list are that condition on the answer itself |
| Transaction.ErrorBlocksCommit | crates/d365-automate-odata/src/transaction.rs:86-98 | an error payload within reach and not shadowed always stops the commit |
| Transaction.BadRowBlocksCommit | crates/d365-automate-odata/src/transaction.rs:86-98 | so does a row within reach and not shadowed whose severity is missing, no text, or no benign word |
| Transaction.RowsConfirmIff | crates/d365-automate-odata/src/transaction.rs:86-126 | without an error payload within reach, an answer is confirmed exactly when it has a row there and none of them is such |
| Transaction.BatchIs | crates/d365-automate-odata/src/transaction.rs:77-84 | the refused operation is `$batch` in any mixture of cases |
| Transaction.ShadowedErrorCommits | crates/d365-automate-odata/src/infolog.rs:103-127 | an error inside a good row is committed over |
| Transaction.DeepErrorCommitsIff | crates/d365-automate-odata/src/infolog.rs:81-84 | an error n arrays deep beside a good row is committed over if and only if n is at least 8 |
| MetadataCaching.ServedIff | crates/d365-automate-odata/src/metadata_cache.rs:82-90 | something is served exactly when the key's latest fetch is within the TTL and after the last invalidation |
| MetadataCaching.BulkIsComplete | crates/d365-automate-odata/src/metadata_cache.rs:133-169 | cached and fetched parts together are the client's own bulk answer: same records as often, same missing names |
| MetadataCaching.AskAllAgrees | crates/d365-automate-odata/src/metadata_cache.rs:152-161 | records stored from a bulk answer under the names they carry agree with the client |
| MetadataCaching.MetadataCache.ServiceMetadata | crates/d365-automate-odata/src/metadata_cache.rs:117-131 | serves what is fresh and otherwise what the client says; against an unchanged client it is always the client's answer |
| MetadataCaching.MetadataCache.BulkServiceMetadata | crates/d365-automate-odata/src/metadata_cache.rs:133-169 | splits names into hits and misses, asks once for the misses, and equals the client's answer as a multiset; hits and misses count the names |
| MetadataCaching.MetadataCache.Store | crates/d365-automate-odata/src/metadata_cache.rs:92-104 | the map holds the latest fetch of each key, and nothing at TTL 0 |
| MetadataCaching.MetadataCache.InvalidateAll | crates/d365-automate-odata/src/metadata_cache.rs:75-80 | nothing fetched earlier is served again; evictions grow by the number of entries |
| MetadataCaching.Replay | crates/d365-automate-odata/src/metadata_cache.rs:67-169 | a fresh cache over an unchanging client gives the specified answers to any sequence of requests |
| MetadataCaching.TransparentIff | crates/d365-automate-odata/src/metadata_cache.rs:67-169 | all those answers are the client's own if and only if caching is off, the client is down, or it finds each record also under the name the record carries |
| MetadataCaching.EmptyBulkAnswered | crates/d365-automate-odata/src/metadata_cache.rs:150-168 | a bulk request for no names, left out of that, is answered with nothing even when the client is down |
| Retrying.RetryWithBackoff | crates/d365-automate-odata/src/retry.rs:34-61 | calls until the first answer that is not transient, at most max(1, max_attempts) times, with the prescribed pauses |
| Retrying.SucceedsIff | crates/d365-automate-odata/src/retry.rs:34-61 | it succeeds exactly when a success comes within the budget behind transient errors only |
| Retrying.WaitIsBounded | crates/d365-automate-odata/src/retry.rs:53-58 | the total pause is at most the initial one plus the cap for each further one |
| Retrying.NextDelayIs | crates/d365-automate-odata/src/retry.rs:53-58 | the next pause is the product with the multiplier, cut to whole milliseconds and to the cap |
| Retrying.PausesDouble | crates/d365-automate-odata/src/retry.rs:21-30 | with the default multiplier pause i is initial times 2^i, capped |
| Retrying.PausesNeverShrink | crates/d365-automate-odata/src/retry.rs:53-58 | a multiplier of at least one never shortens a pause |
| Breaker.CountsFailuresInRow | crates/d365-automate-odata/src/retry.rs:106-160 | in every interleaving the breaker counts transient failures since the last success, is closed exactly below the threshold, and else holds the time of the latest |
| Breaker.InvariantIffThreshold | crates/d365-automate-odata/src/retry.rs:88-98 | that holds for all runs if and only if the threshold is at least 1 |
| Breaker.AdmitsIff | crates/d365-automate-odata/src/retry.rs:106-139 | a call is let through exactly below the threshold or `open_duration` after the latest failure |
| Breaker.RetryAfterIsExact | crates/d365-automate-odata/src/retry.rs:129-137 | the wait a refused caller is told is the shortest that suffices |
| Breaker.StaysShutIffIdle | crates/d365-automate-odata/src/retry.rs:106-160 | a breaker opened by a failure invokes nothing for `open_duration`, in any continuation, if and only if no call is in flight at the opening (or the duration is zero) |
| Breaker.SequentialStaysShut | crates/d365-automate-odata/src/retry.rs:106-160 | so calls that never overlap keep every opened breaker shut that long |
| Breaker.OverlapClosesEarly | crates/d365-automate-odata/src/retry.rs:139-146 | at any opening with a call in flight, that call's success lets the next call through at the same instant |
| Breaker.BusyOpening | crates/d365-automate-odata/src/retry.rs:139-154 | for every threshold from 1 on some run opens the breaker with a call in flight |
| Breaker.CircuitBreaker.Begin | crates/d365-automate-odata/src/retry.rs:123-137 | the first critical section of a call: refusal, and for how long, in terms of the history |
| Breaker.CircuitBreaker.Finish | crates/d365-automate-odata/src/retry.rs:139-160 | the second: the new state for each outcome |
| RateLimiting.NextGrantIsExact | crates/d365-automate-ingest/src/rate_limit.rs:57-73 | each granted time is the request's or one interval, the one in force at the earlier grant, after the previous grant, whichever is later |
| RateLimiting.IntervalIsLastSet | crates/d365-automate-ingest/src/rate_limit.rs:44-73 | the interval in force is the one last set for the host, or the standard one: a grant leaves it alone |
| RateLimiting.GrantInterval | crates/d365-automate-ingest/src/rate_limit.rs:57-73 | each grant is scheduled by the interval set last before it |
| RateLimiting.GrantsAreSpread | crates/d365-automate-ingest/src/rate_limit.rs:57-73 | k grants under intervals of at least I span at least (k - 1) I |
| RateLimiting.HostsAreIndependent | crates/d365-automate-ingest/src/rate_limit.rs:44-73 | a host's grants depend on that host's events alone |
| RateLimiting.FirstGrantIsImmediate | crates/d365-automate-ingest/src/rate_limit.rs:44-73 | with an ordered clock a host's first fetch never waits |
| RateLimiting.RateLimiter.AcquireWait | crates/d365-automate-ingest/src/rate_limit.rs:57-73 | now plus the returned wait is the host's next granted time; no other host changes |
| RateLimiting.RateLimiter.SetInterval | crates/d365-automate-ingest/src/rate_limit.rs:44-51 | only the interval of that host changes, and an existing schedule stays |
| Memory.WorkingMemory.Append | crates/d365-automate-memory/src/lib.rs:111-118 | the session keeps the newest entries up to the capacity; other sessions are unchanged |
| Memory.WorkingMemory.Recent | crates/d365-automate-memory/src/lib.rs:121-127 | newest first, the last entries since the session's last clear, bounded by capacity and limit |
| Memory.WorkingMemory.Clear | crates/d365-automate-memory/src/lib.rs:129-131 | the session is gone and no other changes |
| Memory.KeptGrows | crates/d365-automate-memory/src/lib.rs:111-118 | dropping one entry at a full queue keeps exactly the newest ones |
| Memory.DefaultGrowsWithoutBound | crates/d365-automate-memory/src/lib.rs:94-118 | under the default constructor n appends leave n entries |
| Memory.EpisodicMemory.Record | crates/d365-automate-memory/src/lib.rs:158-169 | the index of every tag lists each record's position once per mention |
| Memory.VisibleIs | crates/d365-automate-memory/src/lib.rs:184-188 | without a tenant every entry is readable; with one, exactly that tenant's entries and those without any |
| Memory.EpisodicMemory.ByTag | crates/d365-automate-memory/src/lib.rs:174-194 | the last `limit` readable entries through the index; with distinct tags per record those of a full scan |
| Memory.IndexIsScanIff | crates/d365-automate-memory/src/lib.rs:158-194 | index and full scan agree for every tenant if and only if no record names the tag twice |

## Left out

- HTTP and OData clients, Qdrant, the crawler, the axum transport, token acquisition, file scanning, the TUI and the console: input, output and foreign calls.
- Rounding: `f32` and `f64` values are reals, so ties and comparisons within one rounding error are not modelled.
- Integer widths: counters, ids and byte offsets are unbounded, so wrap-around of `i64`, `u32` and `usize` is not modelled; `u32::MAX` as the mark of an unreached node is.
- Bounded channels: the capacity of 64 and the waiting it causes are not modelled.
- Rpc: the two programs are steps of one transition system, because a method cannot be suspended at an `await`; `PendingTables.PendingTable` is the table they update in place. A handler that panics, and the end of either reader or writer, are steps. Notifications, ids that are not numbers, the unsplit client loop, elicitation through a disabled handle, timeouts and the return of `run_stdio` itself are not modelled; payloads are opaque.
- DocAssembly.Assemble: raw pointers are index paths with a set of live ones, and a push kills the pointers into the vector it grows; allocation addresses are not modelled.
- DocHeadings.BuildDocumentTree: bytes are characters, only ASCII white space is trimmed, and the summaries and the token counts, a quarter of each length, are left out.
- Community.DetectCommunities: nodes are numbered in the order of their sorted ids, every edge endpoint is declared as direct indexing demands, and the community summaries are left out. Communities of equal size come out of a hash map, so which of them gets the smaller id is not determined. Nothing is claimed about modularity: the gain ignores the cost of leaving a community.
- PprSearch.Surface: picking seeds from the query text is left out; the ranked list is the input.
- Chunker.SplitText: breadcrumbs, ordinals and chunk ids added by `chunk_document` are left out; only ASCII white space is trimmed.
- Robots.Parse: the number syntax of crawl-delay is an input, and only ASCII white space is trimmed.
- Metrics: rendering, snapshots and kind registration are left out; `parse_labels` is no inverse of the key, because it splits on every comma and never unescapes.
- Infolog.ParseInfolog: an object lists its members in its own order, a number carries the text it prints as, a printed JSON value is opaque, and only ASCII white space is trimmed.
- Transaction.ExecuteWriteOperation: the wording of the note for an empty Infolog is opaque.
- MetadataCaching.MetadataCache.BulkServiceMetadata: calls run one after the other, so an invalidation during a fetch is not modelled; one clock reading serves all lookups of a call; the order of the records differs from the client's own and is not claimed.
- MetadataCaching.BulkIsComplete: a client answers a bulk request name by name like its single lookup, and is either up or down as a whole.
- Retrying.RetryWithBackoff: durations are whole milliseconds.
- Memory.EpisodicMemory.Record: the two locks are taken one after the other in the source; only sequential use is modelled.
- Memory.WorkingMemory.Append: an entry is its key, value and tenant; trust class and time are left out.
- `Schedule::next_in` is one modular computation and late in the weekly case; tool, resource and prompt registration, exposure filtering and credential layering are tables and look-ups without state of their own.
