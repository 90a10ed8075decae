# Pensive verification

A Dafny 4.11 model of the memory system's core: the spreading-activation graph
and its compile protocol, the first-character guard of the combined pattern, the
latency gate's statistics, the vector indexes and their snapshot cache,
supersession and trust, the recall payload, chunk location, the transcript
distiller and the edge-campaign writer. `dafny verify dfyconfig.toml` checks it.

How the model is laid out:

- **Graph.** `Sparse` is the compressed matrix; `Graph` the graph as a value and
  every operation on it; `LiveGraph` the class whose methods update the lists and
  buffers in place and are proved equal to those operations; `Growth`,
  `GrowthTheorems`, `Compaction`, `FrozenEdges` and `CompactExact` the laws about
  batches, built edges and compaction; `SavedGraph` saving and loading with its
  checks; `Joins` says of the documents alone which nodes and edges ingest makes;
  `CompileProtocol` all interleavings of compilers and writers, one critical
  section a step, with the list of edges the graph stands for beside it, and
  `CompileRounds` what each round of a call is owed to.
- **Queries.** `Seeding` is the label tables, the cached substring lookup and the
  seeds of a word list, and `EntityTables` the part of the graph object that keeps
  them; `Spread`, `SpreadHops`, `PrunedHops` and `SpreadKernels` the general loop,
  the fast kernel and how they relate; `SeedAnswers` and `Answers` say what words
  and one hop give in terms of the documents alone; `Reloading` says when
  reloading the tables shows in a query's seeds, `Queries` what compaction leaves
  of the spread, and `QueryRuns` runs batches, builds, compilations, compactions
  and queries over graph and tables together.
- **Pattern guard.** `RegexSyntax` gives a parsed pattern a list-of-successes
  meaning (priority order, captures, lookaround as zero-width tests), with its
  laws in `RegexLaws`; `RegexGuard` is the first-character analysis and its
  soundness; `MegaScan` the guarded union and the scan, `ScanMeaning` what a scan
  returns; `MegaExtract` branch naming and the guard's derivation step by step.
- **Latency.** `Binomial` is exact binomial arithmetic over the reals;
  `LatencyVerdict` the bisection and the verdict.
- **Indexes.** `Ranking` is best-first order and the streaming top k;
  `VectorIndexes` the flat and the graph index; `Fingerprint` the framed byte
  stream; `IndexCache` load, retention, save, and crashing savers.
- **Recall.** `Supersession` is the pinned successor walk; `Trust` and `Integrity`
  build on it, and `TrustRows` says what each row carries; `Text` splits and joins
  lines, and `TextLines` says what its lines are; `Payload` assembles under a
  budget and `PayloadParse` reads back; `Enrich` finds a chunk in a file.
- **Writers.** `Distiller` and `EdgeWriter` are classes over their store's rows;
  `DistillItem` says what one span changes, `EdgeCampaigns` how far a campaign and
  its rollback reach.

Scores and weights are reals. Digests, embeddings, the exponential, Unicode
tables, model answers and query answers are parameters; what is asked of each is
a predicate in the contract that uses it (`CollisionFree`, `IsExp`, `Increasing`,
`DecimalIsAlnum`, `Answer`, `Lists`, `IsRoot`).

Where code and comments disagree, the model follows the code:

- `_ensure_mutable_edges` returns as soon as edge buffers exist, so edges made by
  `build()` never get recorded positions and no later batch changes their weights
  (`BuiltEdgesFrozen`). One goes stale exactly when a later batch mentions its
  label (`BuiltEdgeStaleIff`, `StaleAfterOneBatch`). Compacting first repairs this
  (`BuildCompactScript`).
- The refresh looks labels up in an index that also lists nodes under the words
  of their labels, so a label that is a word of another rewrites the other's
  weights. Splitting into batches is then visible (`SplitSafeIff`).
- Compaction merges parallel edges into their summed weight, and a later refresh
  writes the merged edge once. With a document id taken in twice under one entity,
  and not compacted since, the next batch therefore differs (`CompactScriptIff`,
  the exact condition for every script; `CompactRepeatShows`, the smallest input).
- `compact()` says query results are identical before and after. Spreading is
  (`CompactKeepsSpread`). Seeds are, for every word list, exactly when each stale
  cached lookup differs only in nodes listed under the word itself, or, if the load
  moves the substring switch, when no lookup adds a node (`CompactingIsSilentIff`).
  The cache goes stale because a known label taken in under a second type does not
  drop it (`TakingHarmlessIff`, which batches leave it harmless): a word asked
  before then misses the new node, and finds it after compacting
  (`StaleCacheShows`). The switch counts indexed labels before and counted ones,
  single characters included, after.
- The comment on the fast spread says further hops only scale the scores. They
  also move scores below the threshold (`FastMatchesGeneral`), and at threshold 0
  the fast spread reports nodes never visited, unless the hop writes to every node
  or to `max_active` of them (`OneHopIsFastIff`, exact; `ZeroThresholdDiffers`).
  At a positive threshold the loop's result, pruned or not, is a fast answer faded
  (`PrunedHops`). With `max_active` 0 the loop keeps nothing and the fast spread
  everything.
- The latency comment describes an outcome for too few samples without
  violations. The bound already exceeds 5% there, so that sample fails and the
  outcome never happens (`VerdictMeaning`); and a pass may hold violations.
- The guard is built from case pairs and then pruned. It loses a text when a first
  literal has a variant that the written class does not admit: a superscript digit
  beside the decimal class (`SuperscriptIsLost`), a letter that ignores case inside
  a union that does not (`ScopedFoldIsLost`), a letter that folds to no letter
  beside the word class (`WordFoldIsLost`). `CoveredIff` is the exact condition for
  the set and `OneLetterIff` for the scan.
- An importance above the cap is lowered by a bump (`BumpFallsIff`).

## Model

| member | source | states |
|---|---|---|
| Sparse.BuildCsrRow | src/pensive/spreading.py:516-531 | Row i of the compiled matrix is exactly the summed weights of the edges leaving node i, by ascending column |
| Sparse.RowColumns | src/pensive/spreading.py:516-531 | A row names each joined column once, in order, with the total weight of the pair |
| Sparse.MatrixCongruence | src/pensive/spreading.py:516-531 | The matrix depends on the edges only through which pairs are joined and their totals |
| Sparse.CooRoundTrip | src/pensive/spreading.py:624-641 | Listing a matrix as edges and compiling again gives it back, each pair once |
| Joins.IngestTimes | src/pensive/spreading.py:711-746 | A batch adds, from an entity to a document's value, one edge for each of its documents of that id that lists the entity under a label of two characters or more, however often the document lists it |
| Joins.IngestWanted | src/pensive/spreading.py:711-746 | It makes the value nodes of its documents and the entities they list, and no other node |
| Joins.IngestValue | src/pensive/spreading.py:711-714 | A new value node carries the value of the first document of its id |
| Joins.BuildLinksIff | src/pensive/spreading.py:771-794 | After a build an entity is joined to a value if and only if some document of that id lists it; with distinct ids by exactly one edge |
| Joins.BatchLinksIff | src/pensive/spreading.py:800-861 | After a batch, exactly the pairs joined before and those its documents list are joined, and the edges of every pair number those before and one for each listing |
| Joins.ScriptLinksIff | src/pensive/spreading.py:682-746 | After batches, compilations and compactions in any order, whatever ids repeat, the joined pairs are exactly those that a document taken in lists |
| Joins.BuildNodesIff | src/pensive/spreading.py:771-794 | A build has the nodes its documents ask for, and no others |
| Joins.BatchNodesIff | src/pensive/spreading.py:800-861 | A batch adds exactly the nodes its documents ask for to those of the graph |
| Joins.CountIsMentions | src/pensive/spreading.py:785-787 | A label's count is the number of its mentions, a document that lists it twice counting twice |
| Joins.BuildCounts | src/pensive/spreading.py:785-787 | A build stores that number for every label |
| Joins.BatchCounts | src/pensive/spreading.py:848-854 | A batch adds it for every label long enough to name a node |
| Growth.IngestAlike | src/pensive/spreading.py:682-746 | Ingest adds the same nodes, index entries and edge ends whatever the counts, weights and recorded positions |
| Growth.IngestSound | src/pensive/spreading.py:682-746 | Ingest keeps every edge and node at its label's specificity, the index exact and every position recorded |
| Growth.RefreshLabelFresh | src/pensive/spreading.py:600-622 | Without a clash, refreshing a label makes exactly its nodes and edges fresh and leaves the others as fresh as they were |
| GrowthTheorems.GrownEqualsBuilt | src/pensive/spreading.py:771-861 | Any split into batches, in any label order, gives the nodes, entity index, specificities, edges and weights of one build, repeated document ids included |
| GrowthTheorems.GrownWeights | src/pensive/spreading.py:800-861 | Every edge of a grown graph weighs the specificity of its label's count over all documents |
| GrowthTheorems.ClashBreaks | src/pensive/spreading.py:613-619 | Two concrete batches that differ from one build as soon as a label is a word of another |
| GrowthTheorems.SplitSafeIff | src/pensive/spreading.py:600-622 | Every split over a vocabulary agrees with one build if and only if no label is a word of another |
| FrozenEdges.BuiltEdgesFrozen | src/pensive/spreading.py:624-641 | No later batch, over any script of batches and compilations, changes an edge that build() made |
| FrozenEdges.BuiltEdgeCurrentIff | src/pensive/spreading.py:624-641 | After any such script a built edge is current if and only if its label's weight did not change |
| FrozenEdges.BuiltEdgeStaleIff | src/pensive/spreading.py:600-641 | With weights that tell counts apart, it is stale exactly when a later batch mentions its label |
| FrozenEdges.StaleAfterOneBatch | src/pensive/spreading.py:600-641 | The smallest input: a label built once and mentioned once more keeps the weight of one mention |
| Compaction.IngestSimple | src/pensive/spreading.py:682-746 | Documents with distinct ids never join a pair twice |
| Compaction.AddHolds | src/pensive/spreading.py:800-861 | A batch on a compiled, compacted or grown graph leaves the graph of all documents so far |
| Compaction.CompactHolds | src/pensive/spreading.py:1512-1544 | Compaction keeps nodes, joined pairs, weights and matrix |
| Compaction.HoldersAgree | src/pensive/spreading.py:1512-1544 | Two graphs that hold the same documents compile to the same matrix, nodes and specificities |
| Compaction.ScriptEqualsBuilt | src/pensive/spreading.py:1479-1544 | Batches, compilations and compactions in any order from empty end in the nodes, entity index and matrix of one build |
| Compaction.BuildCompactScript | src/pensive/spreading.py:1580-1665 | Compacting a built graph recovers the positions build() never recorded: later scripts agree with one build of everything |
| SavedGraph.SaveLoadRoundTrip | src/pensive/spreading.py:1546-1665 | Loading what a graph saves passes every check and gives back its nodes, counts, index and compiled matrix |
| SavedGraph.LoadedUsableIff | src/pensive/spreading.py:1580-1640 | Saved data that pass the checks give a matrix spreading can walk if and only if no stored column lies beyond the nodes, which a square shape makes sure of |
| SavedGraph.WideDataIsAccepted | src/pensive/spreading.py:1580-1640 | Accepted data that spreading cannot walk: two nodes, and an entry in a third column |
| SavedGraph.CompactIsReload | src/pensive/spreading.py:1512-1544 | Compaction leaves what the loaded graph holds, one generation on |
| Queries.CompactKeepsSpread | src/pensive/spreading.py:1479-1544 | For every seed map both spreads answer after a load or a compaction as before |
| QueryRuns.RunSane | src/pensive/spreading.py:566-598 | After any run of batches, builds, compilations, compactions and queries the tokens and known labels are those of the entity nodes, and only nodes are listed or cached |
| QueryRuns.RunSwitched | src/pensive/spreading.py:479 | After any run, substring seeds are given on a clean graph exactly if its label list holds at most ten thousand labels |
| QueryRuns.LabelsNumber | src/pensive/spreading.py:570-582 | Without a load that list holds the labels of the entity nodes, each once |
| QueryRuns.RunAnswersIff | src/pensive/spreading.py:932-994 | Batches, compilations, compactions and queries in any order spread every seed map as one build of the documents, and seed every word list as its tables do if and only if the cache is harmless or the switch off |
| QueryRuns.CompactingIsSilentIff | src/pensive/spreading.py:1479-1544 | Compaction keeps every spread, and the seeds of every word list if and only if the cache is harmless, or no lookup adds a node when the switch moves |
| QueryRuns.TakingHarmlessIff | src/pensive/spreading.py:566-588 | A batch leaves a harmless cache harmless if and only if it brings a new label, or each cached word that concerns a new node lists the node |
| QueryRuns.StaleCacheShows | src/pensive/spreading.py:566-669 | One batch, one query, one batch: the word asked before misses a known label's node of a second type until the graph is compacted |
| Reloading.ReloadKeepsSeedsIff | src/pensive/spreading.py:1648-1662 | A load leaves the seeds of every word list alone if and only if every stale cached answer differs only in nodes listed under the word itself, or, if it moves the switch, no lookup adds a node |
| Reloading.HarmlessIff | src/pensive/spreading.py:645-669 | The same condition against any fresh tables with the same tokens and switch |
| Reloading.SilentIff | src/pensive/spreading.py:932-977 | A table with the switch on seeds as one with it off if and only if no lookup, cached or made after the cache is cleared, adds a node |
| Reloading.HarmlessAfterIff | src/pensive/spreading.py:566-588 | Which newly indexed nodes keep the cache harmless |
| Seeding.TokensRebuilt | src/pensive/spreading.py:566-598 | The token index kept up to date is the one a rebuild gives, and the label list holds each label once |
| Seeding.TokensMeaning | src/pensive/spreading.py:575-582 | A token finds exactly the labels of entity nodes that contain it |
| Seeding.FreshAfterIff | src/pensive/spreading.py:566-588 | Indexing a new node leaves every cached lookup what a new lookup gives if and only if its label is new or no cached word concerns it |
| Seeding.SeedsMeaning | src/pensive/spreading.py:932-977 | For every word list a node is a seed exactly when a word reaches it, with the maximum of its direct values and, if a substring came first, the substring value |
| Seeding.OrderFreeIff | src/pensive/spreading.py:932-977 | The seeds do not depend on the order of the words if and only if no node gets more as a substring than directly |
| Seeding.GradedOrderFree | src/pensive/spreading.py:146-149 | Boosts that do not rise from exact or partial to substring make them so on every graph |
| Seeding.IndexKeepsTabled | src/pensive/spreading.py:566-588 | Indexing keeps the tokens those of the node list, before and after a load alike |
| Seeding.ReloadTabled | src/pensive/spreading.py:1648-1662 | A load keeps the tokens and takes the counted labels for the known ones, which they are |
| EntityTables.EntityTables.IndexTerm | src/pensive/spreading.py:570-582 | A new label enters the tables and drops the cache; a known one changes nothing |
| EntityTables.EntityTables.RebuildTokenIndex | src/pensive/spreading.py:590-598 | The nested loops rebuild the token index from the label list |
| EntityTables.EntityTables.SubstringSeedNodes | src/pensive/spreading.py:645-669 | The cached answer, or the lookup, remembered in a cache that is cleared when full |
| EntityTables.EntityTables.SeedFromWords | src/pensive/spreading.py:932-977 | The loops over words and nodes give the seeds of the value model and its cache |
| CompactExact.IngestGain | src/pensive/spreading.py:682-746 | Two graphs of one shape and one count gain the very same edges from a batch |
| CompactExact.RefreshExact | src/pensive/spreading.py:600-622 | After the refresh an edge weighs its label's new specificity if the label was touched and its old weight otherwise |
| CompactExact.CompactThenAddIff | src/pensive/spreading.py:1512-1544 | On any current graph, compiled, dirty or compacted, compact-then-add leaves another matrix than add alone if and only if some label of the batch already joins a pair twice |
| CompactExact.CompactScriptIff | src/pensive/spreading.py:624-641 | The same for every graph that batches, compilations and compactions leave, with repeated document ids |
| CompactExact.CompactRepeatShows | src/pensive/spreading.py:624-641 | The smallest input: document 0 taken in and compiled twice, then its label once more |
| CompileProtocol.StepInvariant | src/pensive/spreading.py:398-514 | Every step of every compiler and every write keeps the invariant: faithful snapshots, step budgets, and a clean matrix that is the matrix of the edges builds and batches left |
| CompileProtocol.RunInvariant | src/pensive/spreading.py:398-514 | The invariant holds at every state of every interleaving |
| CompileProtocol.PublishIsCurrent | src/pensive/spreading.py:462-481 | A publication installs the matrix of the edges the graph stands for at that step; no stale snapshot overwrites a newer graph |
| CompileProtocol.ReturnsCurrent | src/pensive/spreading.py:398-514 | A compile call returns only when the matrix is that of the edges builds and batches left |
| CompileProtocol.CleanIsCurrent | src/pensive/spreading.py:398-514 | In every interleaving a graph that is not dirty carries the matrix of the edges that builds and batches left, which no compaction changes, one row a node |
| CompileProtocol.CallsEnd | src/pensive/spreading.py:417-514 | Every call ends within eight optimistic rounds and one locked round, current at that step |
| CompileRounds.LoneCall | src/pensive/spreading.py:398-481 | A call with no writer in between returns at once on a clean graph, and on a dirty one installs the matrix of the held edges in its first round and changes nothing else |
| CompileRounds.RoundsNeedWrites | src/pensive/spreading.py:417-488 | In every interleaving a call in round r has seen the generation move on r times since it began, and one in the locked build eight times |
| CompileProtocol.WrittenLinked | src/pensive/spreading.py:763-861 | Every writer, a failing build included, keeps the graph linked to its list of edges and either changes nothing or moves the generation on |
| CompileProtocol.CompactKeepsTotals | src/pensive/spreading.py:1512-1544 | A compaction in any state leaves every pair joined or not as before, with its total |
| CompileProtocol.MutableIsBase | src/pensive/spreading.py:624-641 | The buffers a batch starts from are the edges the graph stands for, merged pair by pair after a compaction |
| LiveGraph.SpreadingActivation.GetOrAddNode | src/pensive/spreading.py:299-324 | The parallel lists gain one node, or only the specificity is renewed |
| LiveGraph.SpreadingActivation.AddEdge | src/pensive/spreading.py:326-340 | The three buffers gain one edge; its position is recorded unless fast |
| LiveGraph.SpreadingActivation.IndexEntityNode | src/pensive/spreading.py:566-588 | The index gains the node under its label and each of its words |
| LiveGraph.SpreadingActivation.IngestDocument | src/pensive/spreading.py:711-746 | The loop over one document's entities is the ingest of the document, whose nodes and edges Joins.IngestTimes and Joins.IngestWanted pin |
| LiveGraph.SpreadingActivation.IngestExtracted | src/pensive/spreading.py:682-746 | The loop over documents is the ingest of the list |
| LiveGraph.SpreadingActivation.ReweighEdges | src/pensive/spreading.py:618-619 | Exactly the listed positions get the new weight |
| LiveGraph.SpreadingActivation.RefreshSpecificity | src/pensive/spreading.py:600-622 | Walking the touched labels in some order is the refresh in that order |
| LiveGraph.SpreadingActivation.EnsureMutableEdges | src/pensive/spreading.py:624-641 | The buffers are refilled from the matrix only when they are empty and the graph is clean |
| LiveGraph.SpreadingActivation.AddDocuments | src/pensive/spreading.py:800-861 | One incremental batch on the live lists is the batch on the value |
| LiveGraph.SpreadingActivation.Build | src/pensive/spreading.py:771-794 | A batch build resets and ingests as the value does, one generation on |
| LiveGraph.SpreadingActivation.CompileLocked | src/pensive/spreading.py:489-514 | The locked fallback compiles the buffers it holds |
| LiveGraph.SpreadingActivation.GetSaveData | src/pensive/spreading.py:1546-1566 | Saving compiles first and hands out the lists and the matrix |
| LiveGraph.SpreadingActivation.FromSparseV1 | src/pensive/spreading.py:1580-1665 | Loading raises exactly at the first failed check and otherwise fills a new object |
| LiveGraph.SpreadingActivation.Compact | src/pensive/spreading.py:1479-1544 | Save, load into a new object and swap everything but the generation; unbuilt it raises and changes nothing, and the load raises on no graph |
| SeedAnswers.SeedsExplained | src/pensive/spreading.py:932-977 | On a graph that holds the documents, with tables in step, the seeds of any word list are exactly the entities a word spells, is a word of, or names by a token of a known label, each with the largest on offer of boost times the specificity of its number of mentions, and at least 0 |
| Answers.HopIsMaximum | src/pensive/spreading.py:80-100 | One hop gives a document's value exactly the most of its own decayed score and, for each active entity from the threshold on that the document lists, score times decay times specificity times edge weight, and at least 0 |
| Answers.ScriptHop | src/pensive/spreading.py:80-100 | So after batches, compilations and compactions in any order |
| Answers.HeldJoins | src/pensive/spreading.py:711-746 | On a graph that holds the documents two nodes are joined exactly if a document lists the one for the other |
| Spread.ReceivedIsMaximum | src/pensive/spreading.py:80-100 | The one-hop value of a node is the maximum of all that is offered to it, and of 0 |
| Spread.NewActivationsMeaning | src/pensive/spreading.py:1069-1085 | One hop of the dictionary loop holds, for exactly the touched nodes, the scatter-max value |
| SpreadHops.GeneralHops | src/pensive/spreading.py:1057-1094 | On a two-layer graph h hops are exactly the one-hop values faded h - 1 times, at or above the threshold |
| SpreadHops.LaterUnpruned | src/pensive/spreading.py:1086-1092 | If the first hop is not pruned, no later hop is |
| SpreadHops.FastMatchesGeneral | src/pensive/spreading.py:979-994 | On a two-layer graph the loop's h-hop dictionary is any dictionary of the fast spread, faded h - 1 times and thresholded again; at one hop they are the same |
| PrunedHops.PrunedHops | src/pensive/spreading.py:1057-1094 | At a positive threshold h hops of the loop, pruned at any hop or not, are some answer of the fast spread faded h - 1 times and thresholded again |
| PrunedHops.NoneActive | src/pensive/spreading.py:1086-1092 | With max_active 0 the loop holds nothing after its first hop |
| SpreadHops.FastUnpruned | src/pensive/spreading.py:1042-1055 | With a positive threshold and nothing pruned the fast dictionary holds exactly the nodes that reach the threshold, with their values |
| SpreadHops.OneHopExactIff | src/pensive/spreading.py:1069-1094 | Unpruned, one hop of the loop holds exactly the nodes that reach the threshold if and only if the threshold is positive or the hop writes to every node |
| SpreadHops.OneHopIsFastIff | src/pensive/spreading.py:1042-1094 | Pruned or not, one hop of the loop is an answer of the fast spread if and only if the threshold is positive, or the hop writes to max_active nodes or to all; with max_active 0, if no node reaches the threshold |
| SpreadHops.OneSidedIsTwoLayer | src/pensive/spreading.py:996-1001 | Edges from one side to the other compile to a two-layer matrix |
| SpreadHops.ZeroThresholdDiffers | src/pensive/spreading.py:1042-1046 | The failing input: at threshold 0 the fast spread reports a node that the loop never visits |
| SpreadKernels.SpreadBipartiteRaw | src/pensive/spreading.py:80-100 | The kernel's array holds every node's one-hop value |
| SpreadKernels.SpreadGeneral | src/pensive/spreading.py:1057-1094 | The nested loops compute the hops of the value model |
| SpreadKernels.SpreadBipartite | src/pensive/spreading.py:1042-1055 | The result holds the one-hop values at or above the threshold, or max_active of them with none left out scoring more, whichever a tie drops |
| SpreadKernels.SpreadFor | src/pensive/spreading.py:979-994 | A bipartite graph takes the fast path for one hop or more, and any other the loop |
| Spread.NLargestBest | src/pensive/spreading.py:1086-1089 | Pruning keeps k entries, none scoring less than one left out |
| RegexGuard.MatchSeqForward | src/pensive/regex_guard.py:70-120 | No match of any sequence moves the position back or past the text |
| RegexGuard.InSound | src/pensive/regex_guard.py:39-67 | What a class body accepts begins with one of the collected heads |
| RegexGuard.RepeatSound | src/pensive/regex_guard.py:107-114 | A repetition does nothing, only when optional, or starts with a head of its body |
| RegexGuard.FirstSound | src/pensive/regex_guard.py:70-120 | Without a bail, every match anywhere in any text consumes at least one character, the first of which a collected head matches, with the case rule in force there |
| RegexGuard.SpellsSeq | src/pensive/regex_guard.py:70-120 | The analysis bails where the heads are unknown, and what it collects is the case pairs of the head literals and the head classes |
| MegaScan.PruneKeepsIff | src/pensive/regex_guard.py:148-152 | The pruned set denotes the same characters if and only if every dropped non-decimal digit is covered |
| MegaScan.CoveredIff | src/pensive/regex_guard.py:143-154 | The written class admits every variant of every first literal if and only if the condition of the branch pruning takes holds |
| MegaScan.OrdinaryIsCovered | src/pensive/regex_guard.py:143-154 | It holds when patterns use the union's case rule, their first digits are decimal and their first letters fold to letters |
| MegaScan.HeadsRenumbered | src/pensive/mega_extract.py:347-379 | Renumbering groups for the union leaves the heads alone |
| MegaScan.UnionStarts | src/pensive/regex_guard.py:131-141 | Every match of the unguarded union starts with a character that a head of some pattern matches |
| MegaScan.AttemptsAgree | src/pensive/mega_extract.py:366-379 | Under that condition the guarded union has, at every position, the same successes in order as the unguarded one |
| MegaScan.ScanCongruence | src/pensive/mega_extract.py:143-156 | Equal attempts at every position give equal scans, empty matches included |
| ScanMeaning.ScanIff | src/pensive/mega_extract.py:143-156 | A list of matches is what the scan returns if and only if each is the first way to match at the leftmost position that has one from where the match before it ended, and after an empty match the first that moves on |
| ScanMeaning.SpansApart | src/pensive/mega_extract.py:143-156 | The spans found follow one another without overlap, inside the text |
| ScanMeaning.SuccessIsFound | src/pensive/mega_extract.py:143-156 | Every position where the pattern matches lies in a found span or starts one: there is no success in the gaps |
| MegaScan.ScanEquivalence | src/pensive/mega_extract.py:366-379 | Under that condition, guarded or not, on every text the scan finds the same matches in the same order with the same branches and spans |
| MegaScan.UnadmittedIsLost | src/pensive/mega_extract.py:366-379 | A character that some pattern matches and the guard does not admit is found without the guard and lost with it |
| MegaScan.OneLetterIff | src/pensive/mega_extract.py:366-379 | Over patterns of one letter the guard is invisible on every text if and only if the condition holds |
| MegaExtract.UnionBranch | src/pensive/mega_extract.py:143-156 | A success of the union comes from one branch, and captures no group but that branch's |
| MegaExtract.ScanBranches | src/pensive/mega_extract.py:143-156 | The last group of every match in a scan names the branch it came from |
| MegaExtract.SuperscriptIsLost | src/pensive/regex_guard.py:151-152 | A superscript two is found without the guard and lost with it |
| MegaExtract.ScopedFoldIsLost | src/pensive/regex_guard.py:35-36 | A long s is found by a scoped case-insensitive s without the guard and lost with it |
| MegaExtract.WordFoldIsLost | src/pensive/regex_guard.py:148-150 | Beside the word class, a combining mark that iota folds to is lost |
| MegaExtract.Collector.CollectIn | src/pensive/regex_guard.py:39-67 | The loop over a class body adds exactly its first-character set, or bails exactly when the analysis does |
| MegaExtract.FirstOfSeq | src/pensive/regex_guard.py:70-120 | The loop over a sequence computes the first-character set |
| MegaExtract.FirstOfAlternatives | src/pensive/regex_guard.py:100-105 | The loop over alternatives computes the union of their sets |
| MegaExtract.FirstCharsetGuard | src/pensive/regex_guard.py:123-154 | The guard is the pruned set of all patterns, and absent when a pattern fails to parse, bails, or nothing is collected |
| MegaExtract.RenderClass | src/pensive/regex_guard.py:153-154 | The written class body accepts the set's characters and classes |
| Binomial.ChooseFactorial | daemon/gate/tiergate/units.go:693-694 | The recursive coefficient is the factorial quotient computed through log-gamma |
| Binomial.TermRecursion | daemon/gate/tiergate/units.go:684-700 | One more trial mixes the terms of the trials before it |
| Binomial.BelowFull | daemon/gate/tiergate/units.go:691-699 | All terms sum to one |
| Binomial.BelowDecreases | daemon/gate/tiergate/units.go:684-700 | The distribution function strictly falls as p rises, for 0 < p < q < 1 |
| LatencyVerdict.CdfDecreases | daemon/gate/tiergate/units.go:684-700 | The same up to the ends 0 and 1, with their guards |
| LatencyVerdict.BisectBracket | daemon/gate/tiergate/units.go:670-679 | Each halving keeps CDF(lo) > 0.05 >= CDF(hi) and halves the interval |
| LatencyVerdict.BoundBrackets | daemon/gate/tiergate/units.go:660-680 | For 0 < k < n the distribution function crosses 0.05 within 2^-201 of the bound |
| LatencyVerdict.BoundNearRoot | daemon/gate/tiergate/units.go:660-680 | Any rate at which it equals 0.05 is unique and within 2^-201 of the bound |
| LatencyVerdict.ZeroBoundExact | daemon/gate/tiergate/units.go:667-669 | Without violations the closed form is the exact crossing |
| LatencyVerdict.BoundGrows | daemon/gate/tiergate/units.go:660-680 | The bound never falls as violations are added, the step from the closed form up to the bisection error |
| LatencyVerdict.CrossingsGrow | daemon/gate/tiergate/units.go:660-680 | The exact rates that the bounds approximate strictly grow with the violations |
| LatencyVerdict.FewSamplesExceed | daemon/gate/tiergate/units.go:641 | Below 59 samples the bound exceeds 5% whatever was observed |
| LatencyVerdict.VerdictMeaning | daemon/gate/tiergate/units.go:724-740 | Pass takes 59 samples, 59 without violations always pass, fewer always fail, and Error means an empty sample |
| LatencyVerdict.PassCertifies | daemon/gate/tiergate/units.go:724-740 | A pass with violations certifies that at 5% so few would be at most 5% likely, up to the bisection error |
| LatencyVerdict.ViolationUpperBound | daemon/gate/tiergate/units.go:660-680 | The 200-round loop computes the bisection |
| LatencyVerdict.BinomCdf | daemon/gate/tiergate/units.go:684-700 | The summing loop computes the distribution function with its guards and clamp |
| LatencyVerdict.LatencyUnit | daemon/gate/tiergate/units.go:716-740 | Counting violations and the switch give the verdict |
| Ranking.TakeInsert | daemon/src/recall/hnsw_index.py:284-289 | Offering one hit to the k best kept is inserting it into the full order and cutting |
| Ranking.StreamStep | daemon/src/recall/hnsw_index.py:284-289 | The heap after one more hit holds the first k of the full sort by score, then key |
| Ranking.SortIsTop | daemon/src/recall/vector_index.py:255-271 | The first k of the sort are k distinct hits, none scoring less than one left out |
| VectorIndexes.StepMeaning | daemon/src/recall/vector_index.py:185-221 | A build, add or removal on the rows is the same operation on the map from atom to newest vector |
| VectorIndexes.StepValid | daemon/src/recall/vector_index.py:185-221 | At most one row of an atom is ever live |
| VectorIndexes.RunMeaning | daemon/src/recall/vector_index.py:164-221 | After any sequence of operations the rows mean the map, known atoms and retired ids that the operations describe |
| VectorIndexes.NewestWins | daemon/src/recall/vector_index.py:207-221 | After any history an added vector is the one found and a removed atom is gone |
| VectorIndexes.ProductsLinear | daemon/src/recall/vector_index.py:258 | A score is linear in the stored vector |
| VectorIndexes.ProductsSymmetric | daemon/src/recall/vector_index.py:258 | It is the same either way round |
| VectorIndexes.ProductsUnit | daemon/src/recall/vector_index.py:258 | Against a unit vector it is the coordinate |
| VectorIndexes.ScoreOverNorm | daemon/src/recall/vector_index.py:258 | The query divided by its norm scores the product over the norm |
| VectorIndexes.EligibleCount | daemon/src/recall/vector_index.py:236-253 | Eligible rows are as many as live allowed atoms |
| VectorIndexes.TopIsBest | daemon/src/recall/vector_index.py:223-271 | A top k of the rows is min(k, eligible) distinct live allowed atoms by descending score of the newest vector, none omitted scoring higher |
| VectorIndexes.BestScoresUnique | daemon/src/recall/hnsw_index.py:260-293 | However ties break, flat and scoped graph search return the same scores |
| VectorIndexes.FlatIndex.Load | daemon/src/recall/vector_index.py:164-183 | A rebuild holds exactly the loaded rows, none retired |
| VectorIndexes.FlatIndex.Drop | daemon/src/recall/vector_index.py:185-202 | Every row of the atom is masked, and the answer says whether it had one |
| VectorIndexes.FlatIndex.Insert | daemon/src/recall/vector_index.py:207-221 | Older rows are retired and the newest appended |
| VectorIndexes.FlatIndex.RetiredIds | daemon/src/recall/vector_index.py:204-205 | The ids of the masked rows are the retired ids of the map |
| VectorIndexes.FlatIndex.Search | daemon/src/recall/vector_index.py:223-271 | The result is the best k of the live allowed atoms, or nothing for a zero query |
| VectorIndexes.HnswIndex.Load | daemon/src/recall/hnsw_index.py:140-191 | A rebuild stores keys 0..n-1 for the loaded rows |
| VectorIndexes.HnswIndex.Drop | daemon/src/recall/hnsw_index.py:193-206 | Every key of the atom leaves the graph and the atom is remembered as retired |
| VectorIndexes.HnswIndex.Insert | daemon/src/recall/hnsw_index.py:211-228 | The key is the atom's position, on an unbuilt graph too |
| VectorIndexes.HnswIndex.SearchScoped | daemon/src/recall/hnsw_index.py:260-293 | The batched heap returns the first k of the full sort by (-score, key), which are the best k atoms |
| VectorIndexes.RunBoth | daemon/src/recall/hnsw_index.py:120-228 | After the same operations both indexes hold the same rows, map and retired ids |
| Fingerprint.ValueBigEndian | daemon/src/recall/index_cache.py:26-27 | Eight big-endian bytes state a length back |
| Fingerprint.FieldReads | daemon/src/recall/index_cache.py:26-27 | A framed field reads back with whatever follows it |
| Fingerprint.DecodeStream | daemon/src/recall/index_cache.py:57-71 | The hashed stream decodes to its configuration and its ordered rows |
| Fingerprint.FingerprintIdentifies | daemon/src/recall/index_cache.py:57-71 | With a collision-free digest equal fingerprints mean equal configuration and rows |
| Fingerprint.IndexFingerprint | daemon/src/recall/index_cache.py:57-71 | The digest fed piece by piece is the digest of the stream |
| IndexCache.LoadIndexSnapshot | daemon/src/recall/index_cache.py:185-202 | The loader sees only files that pass the digest check, newest first, until it accepts one |
| IndexCache.RetainTwo | daemon/src/recall/index_cache.py:168-182 | The loop is a retention pass with the publication first |
| IndexCache.RetainKeepsTwo | daemon/src/recall/index_cache.py:168-182 | A pass keeps the publication, and deletes another file exactly if it is a listed valid snapshot with a newer valid one, the publication aside, before it |
| IndexCache.Cache.SaveIndexSnapshot | daemon/src/recall/index_cache.py:205-243 | A save publishes what was written and retains two; false leaves the directory as it was, except that a directory sync failing after the rename answers false with the snapshot in place |
| IndexCache.StepKeeps | daemon/src/recall/index_cache.py:205-243 | Every step of every saver, a crash at any point, or rot of a stored file keeps each snapshot name traced to a publication |
| IndexCache.RunKeeps | daemon/src/recall/index_cache.py:205-243 | So does every run of any number of savers |
| IndexCache.HitWasPublished | daemon/src/recall/index_cache.py:185-202 | A file that passes the digest check under a source's name holds what was published for exactly that configuration and those rows |
| Supersession.WalkToEnd | daemon/src/recall/trust.py:277-300 | The loop ends, with the end of the chain or a cycle |
| Supersession.WalkMeaning | daemon/src/recall/trust.py:277-300 | It raises exactly when the pinned path revisits a node, and otherwise gives the one end of the path and whether it crossed a fork |
| Supersession.EndedNeverRepeats | daemon/src/recall/trust.py:277-300 | A pinned path that ends has no other path from its start that is longer or repeats |
| Trust.SuccessorMap | daemon/src/recall/trust.py:229-274 | The map and forks gathered from the query agree with the whole store's smallest-successor pins on every atom covered, which is closed |
| Trust.SameWalk | daemon/src/recall/trust.py:361-362 | Walking the gathered map is walking the whole store |
| Trust.ClampIsIdle | daemon/src/recall/trust.py:71-82 | The blend stays in [0.25, 1], so the clamp never acts |
| Trust.AgreementDecides | daemon/src/recall/trust.py:151-163 | Two agreeing primary signals always reach the trust floor; without one nothing does |
| Trust.JudgeSound | daemon/src/recall/trust.py:394-459 | Every row returned is live, or superseded with a live, never superseded successor at the end of its pinned path and confidence at most 0.4, never trusted; an uncorroborated import is never trusted |
| Trust.SupersededFate | daemon/src/recall/trust.py:427-436 | A superseded result raises exactly on a cycle and is dropped exactly when its path ends at no live atom |
| Trust.AssessTrust | daemon/src/recall/trust.py:330-461 | The loop over one query's answer is the judgement of each result over the whole store, whose rows TrustRows.AssessmentSays pins |
| Trust.AssessedFails | daemon/src/recall/trust.py:395-400 | The call raises exactly when some result does |
| Trust.AssessmentSound | daemon/src/recall/trust.py:330-461 | Rows keep the input order, each is sound, and a result is missing only when it is dropped |
| TrustRows.AssessmentSays | daemon/src/recall/trust.py:402-459 | Every row carries its result's id and score and the sum 0.5 agreement + 0.3 lead + 0.2 freshness, uncapped if live and not suspect, otherwise at most 0.4, and is trusted from 0.6 on; every live result has its row |
| TrustRows.ConfidenceWeighs | daemon/src/recall/trust.py:151-192 | The confidence is that sum with each part written out: agreement by signals, lead over the second result, freshness by age |
| TrustRows.SuspectIsUncorroborated | daemon/src/recall/trust.py:303-327 | The cap applies exactly to a document chunk whose only source is the bulk import and which at most one of keyword, meaning and facet found |
| TrustRows.WhoIsTrusted | daemon/src/recall/trust.py:410-421 | A live atom that both primary signals found is trusted whatever its age and lead; one that neither found, a suspect and a superseded one never are |
| TrustRows.AgeLowers | daemon/src/recall/trust.py:184-192 | Assessed later, a row no cap holds down has strictly less confidence, unless its atom is still dated in the future, and no row has more |
| TrustRows.LeadLifts | daemon/src/recall/trust.py:166-181 | A first result with a higher score, all else alike, is as confident or more |
| TrustRows.FreshAgreement | daemon/src/recall/trust.py:410-421 | A lone live result of both primary signals dated now has confidence 0.95 and is trusted |
| Integrity.SupersessionSanity | daemon/src/lifecycle/integrity.py:87-125 | The worklist ends; every reported path is a closed walk; nothing is reported exactly when there is no cycle |
| Integrity.FromStart | daemon/src/lifecycle/integrity.py:110-120 | From one start, nothing is reported exactly when no closed walk passes through it |
| Integrity.BuildGraph | daemon/src/lifecycle/integrity.py:92-101 | The adjacency lists hold exactly the edges |
| Integrity.CleanNeverRaises | daemon/src/lifecycle/integrity.py:109-120 | After a clean report the trust layer's walk ends from every atom |
| Text.SplitUnbroken | daemon/src/recall/payload.py:227-237 | No line of a split text holds a line break |
| Text.JoinSplit | daemon/src/recall/payload.py:240-251 | Joining unbroken lines and splitting gives them back |
| TextLines.SplitLinesIff | daemon/src/recall/payload.py:240-251 | The lines of a text are exactly those it is written with, each followed by a line break and the last perhaps by none, in the one way that reads a carriage return and newline as one break |
| TextLines.SplitKeepsCharacters | daemon/src/recall/payload.py:240-251 | Concatenated, the lines are the text without its line breaks |
| TextLines.JoinedLines | daemon/src/recall/payload.py:240-251 | Unbroken lines joined by any one line break come back |
| Payload.EnrichedEntry | daemon/src/recall/payload.py:355-376 | Enricher lines shed from the end; the bare entry is never touched |
| Payload.HandleTail | daemon/src/recall/payload.py:444-474 | Handles follow in rank order as long as they fit, and the next does not |
| Payload.FillEntries | daemon/src/recall/payload.py:404-426 | The entries are the first k results whole and then handles, each once, in rank order, within the budget |
| Payload.AssemblePayload | daemon/src/recall/payload.py:379-441 | For every budget of at least 0 the estimate is within it; trusted mode is a ranked prefix, otherwise the sentinel and at most three handles |
| Payload.LowConfidencePayload | daemon/src/recall/payload.py:477-490 | The sentinel, or nothing, then the first handles that fit |
| PayloadParse.HandleNames | daemon/src/recall/payload.py:259-265 | A handle line opens with its atom's address whatever the store holds |
| PayloadParse.HandleLabels | daemon/src/recall/payload.py:311-318 | A handle carries the untrusted label and the address of its successor in full |
| PayloadParse.FurniturePlain | daemon/src/recall/payload.py:227-286 | Every furniture line is one nonempty physical line |
| PayloadParse.EntryIsBlock | daemon/src/recall/payload.py:289-298 | An entry is its handle, its indented body lines and its provenance line |
| PayloadParse.ReadsBack | daemon/src/recall/payload.py:379-441 | Splitting on blank lines and removing the indent gives back the ranked entries; EntriesReadBack says what they hold |
| PayloadParse.EntriesReadBack | daemon/src/recall/payload.py:379-441 | Read back, a payload says of each of its first results, if trusted, its address, date and gist on one line, its stored text line for line and its source and successor, and of every other result its handle alone |
| PayloadParse.BodyIsText | daemon/src/recall/payload.py:240-251 | A body read back is the stored text: joined lines come back whatever line break joins them, nothing but the breaks is lost, and an empty text is one empty line |
| PayloadParse.HandleSays | daemon/src/recall/payload.py:259-318 | A handle is its address, date and gist with a space for each line break, then the untrusted label and the successor where they apply |
| Enrich.NormIsWords | daemon/src/recall/enrich.py:78-79 | Normalising is joining the words by single spaces |
| Enrich.WindowGlue | daemon/src/recall/enrich.py:136-139 | Normalising lines together is normalising the parts and gluing them |
| Enrich.PrefixBreak | daemon/src/recall/enrich.py:142-143 | A window that stopped being a prefix never becomes the target |
| Enrich.BlankFirst | daemon/src/recall/enrich.py:128-135 | A match that opens on blank lines is also a match from its first line that is not blank |
| Enrich.LocateChunk | daemon/src/recall/enrich.py:91-144 | A span is found exactly when some run of lines matches, and it is the earliest nonblank start with the smallest end |
| Distiller.BumpFallsIff | daemon/src/ambient/distiller.py:241-262 | A bump raises an importance below the cap and lowers it exactly when it lay above |
| Distiller.DistillKeeps | daemon/src/ambient/distiller.py:490-550 | Over any run importance stays in [0, cap] and never falls, no text changes, and no provenance row is written twice |
| DistillItem.OutcomeIff | daemon/src/ambient/distiller.py:490-550 | A span bumps exactly if it is no emit and its trusted reference is known, or it has an answer and the near atom is live; inserts exactly if there is an answer, no known reference and no live near atom; passes through exactly as a new emit that is not empty; and is otherwise skipped |
| DistillItem.ProcessDoes | daemon/src/ambient/distiller.py:241-550 | A bump raises the one atom it reaches by 0.05, up to 1, if it is live, and changes no other; a near duplicate gains its row once; an insertion adds one live atom with the stripped answer or the composed emit, importance 0, with its row; a skip changes nothing |
| DistillItem.ImportanceCounts | daemon/src/ambient/distiller.py:241-262 | After any run a live atom stands 0.05 higher for each bump that reached it, up to 1, its text as it was |
| DistillItem.CountersMeaning | daemon/src/ambient/distiller.py:490-550 | Each counter of the report counts the spans with its own outcome |
| Distiller.CreatesOnce | daemon/src/ambient/distiller.py:226-238 | Over any run no trusted reference creates two atoms, or one the store already knew |
| Distiller.RepeatCreatesOnlyErrored | daemon/src/ambient/distiller.py:490-527 | Anywhere in any run, a span met again creates an atom only where summarising failed before |
| Distiller.ReplayCreatesOnlyErrored | daemon/src/ambient/distiller.py:490-527 | A replay, with any spans distilled in between, creates an atom only where summarising failed before |
| Distiller.ReplayIsIdle | daemon/src/ambient/distiller.py:490-550 | After a pass without failed summaries the replay adds no atom, whatever came in between |
| Distiller.TalliedMeaning | daemon/src/ambient/distiller.py:618-689 | The counters sum to the spans and the ids reported are the atoms added |
| Distiller.DistillAppend | daemon/src/ambient/distiller.py:618-689 | A sequence of calls is one call over all their spans |
| Distiller.Ambient.AccrueImportance | daemon/src/ambient/distiller.py:241-274 | The update on the object is that of the value model, whose effect DistillItem.ProcessDoes states |
| Distiller.Ambient.AttachProvenanceIfAbsent | daemon/src/ambient/distiller.py:295-351 | The row is added unless it is there or has no reference |
| Distiller.Ambient.DistillSpan | daemon/src/ambient/distiller.py:490-527 | The branches for known, failed, declined, near and new spans, with their counters |
| Distiller.Ambient.PassthroughSpan | daemon/src/ambient/distiller.py:530-550 | An emit is written once, skipped when known or empty |
| Distiller.Ambient.Run | daemon/src/ambient/distiller.py:618-689 | A call over its spans is the fold of the single steps |
| EdgeWriter.RunKeeps | daemon/tools/edge_writer.py:48-134 | Over any run of campaigns and rollbacks relates edges stay unique per pair and no edge outlives its provenance row |
| EdgeWriter.ApplySettles | daemon/tools/edge_writer.py:74-99 | After a batch every edge carries the last accepted confidence of its pair or is as it was, and only owned rows were added |
| EdgeWriter.RerunIsIdle | daemon/tools/edge_writer.py:52-54 | Writing the same verdicts again changes nothing |
| EdgeWriter.UndoRestores | daemon/tools/edge_writer.py:107-131 | Undoing a fresh campaign restores every row but the weights it gave to edges already there |
| EdgeWriter.WrittenAreRows | daemon/tools/edge_writer.py:88-99 | The table grows by exactly the verdicts reported written |
| EdgeCampaigns.RollbackScope | daemon/tools/edge_writer.py:107-131 | A row goes exactly if its source is the edge campaign and its reference the one undone, an edge exactly if such a row owns it; everything else stays unchanged |
| EdgeCampaigns.RollbackByRow | daemon/tools/edge_writer.py:107-131 | Where every owned edge has its row, an edge stays if and only if it has no owner or its owner's row stays |
| EdgeCampaigns.UndoTwice | daemon/tools/edge_writer.py:107-131 | Undoing a campaign again changes nothing |
| EdgeCampaigns.UndoCommutes | daemon/tools/edge_writer.py:107-131 | Campaigns may be undone in any order |
| EdgeCampaigns.WriteOwned | daemon/tools/edge_writer.py:88-99 | Each edge a batch adds leads from the atom of a new row of that campaign; older rows stay and older edges keep their ends and owner |
| EdgeCampaigns.OthersKeep | daemon/tools/edge_writer.py:48-134 | Over any run without its own rollback, whatever else is written and undone, a campaign keeps every row and edge; only weights may change |
| EdgeCampaigns.UndoIsScoped | daemon/tools/edge_writer.py:107-131 | After any run, undoing one campaign leaves every row and edge of another unchanged, weight included, and nothing of its own |
| EdgeCampaigns.RowsTraced | daemon/tools/edge_writer.py:48-134 | Every row a run adds comes from a write of its campaign that was not undone since |
| EdgeCampaigns.ReportCounts | daemon/tools/edge_writer.py:65-99 | The report counts the malformed, the rejected, those that name a missing atom, and as written or updated all others; written is the growth of the edge table |
| EdgeWriter.Store.WriteVerdicts | daemon/tools/edge_writer.py:48-104 | One transaction: all lines applied and counted, the five counts summing to the lines, or nothing changed |
| EdgeWriter.Store.RollbackCampaign | daemon/tools/edge_writer.py:107-131 | The call is the rollback EdgeCampaigns.RollbackScope describes, and reports how many edges and rows are gone |

## Left out

- MegaScan.ScanEquivalence: one direction for patterns longer than a letter. Whether an unadmitted first character changes some scan then depends on the rest of the pattern; `CoveredIff` is exact for the set of every union and `OneLetterIff` for scans of one-letter patterns.
- SavedGraph.LoadedUsableIff: SciPy's own format check is taken as the comment beside it describes it; legacy saves are not modelled.
- FrozenEdges.BuiltEdgesFrozen: scripts without compaction, which records positions; `Compaction.BuildCompactScript` covers those.
- QueryRuns.RunAnswersIff: runs without a rebuild, whose edges later batches leave alone; `QueryRuns.RunSane` covers them. Blank query texts, which return before anything is read.
- Answers.ScriptHop: distinct document ids and no label that is a word of another; `GrowthTheorems.SplitSafeIff` and `CompactExact.CompactScriptIff` say exactly when weights differ otherwise, `Joins.ScriptLinksIff` needs neither.
- SeedAnswers.SeedsExplained: cached lookups that are still right; `QueryRuns.RunAnswersIff` says exactly when stale ones show.
- SpreadKernels.SpreadBipartite: a negative `max_active`, which the configuration does not refuse.
- RegexSyntax.MatchRepeat: an iteration that consumes nothing is not taken, where the engine takes it once and keeps its captures; the guarded and the unguarded union run the same matcher, so their equivalence does not turn on it.
- EntityTables.EntityTables.SubstringSeedNodes: a separate object for fields of the graph object; splitting a label into tokens is a parameter.
- LatencyVerdict.BoundGrows: from the closed form at no violations to the bisection at one, the bound may fall by the bisection error of 2^-201, and it may stay equal; `CrossingsGrow` is strict for the rates themselves.
- IndexCache.HitWasPublished: assumes a collision-free digest and that snapshot names are made only by the cache; a stored snapshot's content may become anything.
- Fingerprint.IndexFingerprint: lengths from 2^64 bytes on, where packing raises, and the canonical JSON of the configuration, which is taken as bytes.
- IndexCache.Cache.SaveIndexSnapshot: directory modes and symbolic links, and a retention step that cannot read or delete one file and leaves it; a save interrupted between steps is covered by `IndexCache.RunKeeps`.
- VectorIndexes.FlatIndex.Search: which of several rows with one score is returned; the partial sort leaves ties open, and the contract with it.
- VectorIndexes.HnswIndex.Search: the unscoped walk of the graph, an approximate foreign index; only the exact scoped search is modelled.
- Trust.AssessTrust: the wording of evidence in `why`, except for the uncorroborated and superseded clauses; the three queries are given as their answers.
- Integrity.SupersessionSanity: dangling edges and forked predecessors, read off the same rows.
- Payload.AssemblePayload: the choice of the gist line, dates and number formats, given as the text of the furniture; atoms missing from the store, where rendering raises.
- PayloadParse.ReadsBack: needs no enricher; enricher lines are appended as they are and may hold blank lines. The budget and prefix claims cover them.
- Enrich.LocateChunk: reading and decoding the file, given as its size and its text.
- Distiller.Ambient.DistillSpan: segmentation and how a span's reference is spelled from session, offset and digest; the near-duplicate search is any answer that names a live atom.
- Distiller.Ambient.Run: the verbatim policy, which never deduplicates, and unknown policies, which raise before any write.
- EdgeWriter.Store.WriteVerdicts: which of several duplicate edges made elsewhere a lookup returns; the lowest id stands for it.
- LatencyVerdict.LatencyUnit: the report's payload, and log-gamma sums as floating point; 0.05^(1/n) is any real whose n-th power is 0.05.
- MegaExtract.FirstCharsetGuard: escaping and sorting of the written class body, and the parser itself; patterns arrive parsed, Unicode facts as a table.
- LiveGraph.SpreadingActivation.AddDocuments: entity extraction and the token split, given as documents with entities and the words of a label; node ids are pairs of type and label, so a type that contains a colon is not confused with a label.
- LiveGraph.SpreadingActivation.CompileLocked: rounding of weights to 32 bits.
- CompileProtocol.CleanIsCurrent: a critical section is one step, so the lock-free test of the dirty flag sees the state before or after a section, never inside one, where a reset clears the matrix before it sets the flag.
- Reset on an exception during a build is one write of the protocol; the exception itself is not modelled.
- Splitting literal patterns out of the union, which does not keep matches (underscores, overlaps).
- Parallel builds, result collection and the context pass around the spread, HTTP and MCP serving, file watching, command lines and benchmarks.
- numpy, numba, SciPy, SQLite, usearch and the language models, which are foreign code.
