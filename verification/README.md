# VaultDB in Dafny

A model of the parts of the VaultDB server whose correctness rests on agreement: between nodes, between an index and the
rows, between a cache and what it stands for, between an expression and its text, its wire form or its frozen form. Each
part has a specification on values (functions and state machines), the theorems about it, and, where the server works by
changing things step by step, classes and methods with loops that are proved against the specification.

`dafny verify dfyconfig.toml` checks the whole project.

| files | part of the server |
|---|---|
| `RaftNode`, `RaftCluster`, `RaftSafety`, `RaftNames` | leader election and quorum append as a step system over a fixed membership |
| `Gist`, `Gin`, `Indexes` | interval tree, inverted index, composite and hash index |
| `Ast`, `Eval`, `Correlate` | expressions, their evaluation, correlated subqueries |
| `Freeze`, `Readings`, `WireCodec`, `PendingOps`, `TxBuffer`, `TxOverlay`, `TxClock`, `TxCommit` | buffered writes of a transaction: freezing, spilling, savepoints, replay, commit |
| `Parser`, `ParserMachine`, `Printer`, `TokenSegments`, `PrinterExact`, `PrinterLimits`, `Checks` | expression grammar, the parser object, the printer, stored CHECK constraints |
| `RecursiveCte` | recursive common table expressions |
| `ResultCache`, `StatementCache`, `RateLimit`, `Audit`, `Auth` | state kept over long histories of calls |
| `Results`, `Sets`, `Sorting`, `StringOrder`, `Text` | shared helpers: outcomes, lists, map iteration in any order, sorting, string order, joining and case |

## What the model assumes

- The clock, the network, failing writes, the order in which a Go map is visited and the order a sort leaves equal
  elements in are inputs or arbitrary choices; every theorem holds for all of them.
- Hash functions are arbitrary functions. Where a theorem needs them to be free of collisions, it says so.
- Comparison, arithmetic, casts and SQL functions are arbitrary functions of their argument values.
- Floating-point numbers are reals without NaN. Integers that wrap in the server (the Raft term) wrap in the model, and
  the election theorems exclude runs that reach the wrap.
- Texts are ASCII where case or space matters.
- A clock gives every volatile call its own reading and every subquery what it finds in the database at the moment. It
  may fail, as UUID and subqueries can; the theorems about readable clocks are for those that do not. Computed columns are
  expressions under that clock.
- Where a theorem says that an expression or operation can have a value, some environment must give it one with every
  part evaluated: any environment for expressions without IN lists, one where no list search ends with a hit for others.
- Constraints of a table are an arbitrary predicate on the rows before and after a statement.
- List elements and tree nodes are values; the statement cache alone numbers its list elements, because there two equal
  elements behave differently.

## Where the code does not do what it says

Each of these has a lemma with a failing input, or with a family of them, and a lemma that says exactly when the
property holds.

- A node with an empty name breaks election safety in clusters of three or more, because an empty vote counts as no vote
  (`RaftNames.EmptyNameElectsTwo`, `RaftNames.NamesDecideSafety`).
- A new audit log does not read the last hash back, so the first entry after a restart over a non-empty table breaks the
  chain (`Audit.RestartBreaksChain`); an entry with a bar inside a field can be changed unseen
  (`Audit.BarsHideTampering`, `Audit.PayloadFixesEntryIff`, `Audit.TamperEvidentIff`).
- A revoked token can be accepted again: a purge forgets the revocation of a token that was not registered by name
  (`Auth.RevokedForever`), although the comment on revocation says never.
- The statement cache lowers the case of string literals, so it returns the statement of another text
  (`StatementCaches.LiteralsAreNotCaseBlind`, `StatementCaches.CacheTransparentIffCaseBlind`); a colliding put leaves a
  dead list element whose eviction unmaps the live one (`StatementCaches.OrphanUnmapsLive`,
  `StatementCaches.ReachableIffCollisionFree`).
- Dropping idle rate-limit buckets hands out extra tokens when the burst exceeds 300 seconds of refill
  (`RateLimits.CleanupShows`, `RateLimits.CleanupInvisibleIff`).
- Freezing does not enter BETWEEN, CAST and CASE (`Freezing.ShelteredCallDrifts`, `Readings.FrozenSettledIff`,
  `Freezing.FrozenSteadyIff`), and does not concern volatile computed columns (`TxClocks.NowColumnDrifts`,
  `TxClocks.FrozenReplaySettledIff`, `TxClocks.FrozenReplaySteadyIff`).
- The overlay evaluates the values of an UPDATE without a row, although the comment there says that this makes it match
  the commit, and visits them in the order of a map keyed by spelling (`TxCommits.IncrementNotShown`,
  `TxCommits.TwoSpellings`, `TxCommits.UpdateMatchesIff`, `TxCommits.OverlayMatchesCommit`). It leaves auto-increment
  columns NULL (`TxCommits.InsertMatchesIff`), shows INSERT ... SELECT as no rows and ON CONFLICT and OR REPLACE as
  appended rows (`TxCommits.OtherForms`).
- Spilling drops OR REPLACE without an error (`TxCommits.OrReplaceForgotten`, `TxCommits.CommitRecodedIff`).
- A savepoint name that is set again keeps its old place in the order (`TxBuffers.RepeatedNameLeftBehind`,
  `TxBuffers.SavepointsRankedIff`).
- Correlated subqueries look at the outer row first and without qualifiers, turn an outer NULL into text and do not reach
  under BETWEEN or CAST (`Correlation.QualifiersIgnored`, `Correlation.BetweenNotRewritten`, `Correlation.ColumnKeptIff`,
  `Correlation.InjectedUsesOuterIff`).
- Printing drops the parentheses of nested arithmetic and of a compared negation, and the point of a whole float
  (`PrintingLimits.SumTimesRegrouped`, `PrintingLimits.NegationRegrouped`, `PrintingLimits.WholeFloatChangesType`,
  `PrintingExact.ReadsBackIff`, `PrintingLimits.LiteralReadsBackIff`).
- A CHECK takes IS NULL, IS NOT NULL and LIKE for comparisons, which are false (`Checks.CheckNullTestIff`,
  `Checks.CheckLikeFails`).
- The GIN index and the two key indexes go wrong when a row or position is added twice (`Gin.AddKeepsIffFresh`,
  `Indexes.HashInsertIffFresh`, `Indexes.CompositeInsertIffFresh`); rows with NUL characters can share a key in a
  recursive query (`RecursiveCte.NulMergesRows`, `RecursiveCte.KeyFixesRowIff`).

## Model

| member | source | states |
|---|---|---|
| `RaftNodes.RaftNode.constructor` | server/internal/cluster/raft/node.go:35-43 | a new node follows in term 0 and has voted for nobody |
| `RaftNodes.RaftNode.AddPeer` | server/internal/cluster/raft/node.go:45-49 | membership grows by the peer and nothing else changes |
| `RaftNodes.RaftNode.RequestVote` | server/internal/cluster/raft/node.go:51-68 | the whole new node state, the answer and the heartbeat time of a vote request |
| `RaftNodes.RaftNode.AppendEntries` | server/internal/cluster/raft/node.go:70-82 | the whole new node state and the answer; a higher term is taken over without clearing the vote |
| `RaftNodes.RaftNode.BeginTick` | server/internal/cluster/raft/node.go:84-104 | an election starts exactly when a non-leader has waited out the timeout; its term, its vote and the peers to ask |
| `RaftNodes.CountVotes` | server/internal/cluster/raft/node.go:106-112 | the counting loop yields one plus the number of peers that granted, in any order of visits |
| `RaftNodes.RaftNode.FinishTick` | server/internal/cluster/raft/node.go:114-119 | the node becomes leader exactly when it is still candidate in that term and has more than half |
| `RaftNodes.Replicator.constructor` | server/internal/cluster/raft/replication.go:16-22 | a replicator starts in synchronous mode |
| `RaftNodes.Replicator.AppendWithTx` | server/internal/cluster/raft/replication.go:25-97 | an append is reported done exactly when the node leads, the local write worked, and there are no peers, or the mode is asynchronous, or the acknowledgements that came in time make a quorum |
| `RaftSafety.MajoritiesMeet` | server/internal/cluster/raft/node.go:116 | two majorities of one membership share a node |
| `RaftSafety.AddBallot` | server/internal/cluster/raft/node.go:51-68 | a granted vote keeps one vote per node and term, although a raised term may carry a stale vote; only a vote for an empty name can be followed by another |
| `RaftSafety.StepKeeps` | server/internal/cluster/raft/node.go:51-123 | every step (start an election, deliver or lose a vote request, finish an election, begin, deliver, lose, complete or abandon an append round) keeps the cluster invariant, and terms, votes and history only grow |
| `RaftSafety.RunKeeps` | server/internal/cluster/raft/node.go:51-123 | the invariant holds in every state of every run |
| `RaftSafety.ElectedStays` | server/internal/cluster/raft/node.go:114-119 | an election once won stays won with the same voters for the rest of the run |
| `RaftSafety.OneWinner` | server/internal/cluster/raft/node.go:114-119 | two winners of one term are the same node, unless a node of three or more has an empty name |
| `RaftSafety.ElectionSafety` | server/internal/cluster/raft/node.go:51-123 | over a whole run with interleaved elections, votes and appends, at most one node is ever leader of a given term (Election Safety, section 5.2 of the Raft paper), when no node name is empty or there are at most two nodes |
| `RaftSafety.LateVoter` | server/internal/cluster/raft/replication.go:67-79 | a node whose term is still below an election's term is not among the voters it was won with |
| `RaftSafety.NoQuorumOutside` | server/internal/cluster/raft/replication.go:46-53 | acknowledgements that avoid a majority of voters cannot make a quorum |
| `RaftSafety.StaleLeaderCannotCommit` | server/internal/cluster/raft/replication.go:25-97 | once a node has led term t, no synchronous append begun later by a leader of a lower term ever succeeds, whatever the names |
| `RaftNames.EmptyNameElectsTwo` | server/internal/cluster/raft/node.go:61-62 | in every cluster of three or more with an empty node name, some run elects two leaders of one term, because an empty vote counts as no vote |
| `RaftNames.NamesDecideSafety` | server/internal/cluster/raft/node.go:51-123 | election safety holds in every run exactly when no node name is empty or there are at most two nodes |
| `Gist.Union` | server/internal/core/index/gist_index.go:18-23 | the union of two rectangles is the smallest one around both |
| `Gist.Around` | server/internal/core/index/gist_index.go:51-67 | the rectangle of a node holds the rectangles of everything in it |
| `Gist.AroundIsLeast` | server/internal/core/index/gist_index.go:51-67 | and is inside every other rectangle that does |
| `Gist.UpdatedCovers` | server/internal/core/index/gist_index.go:51-67 | updating a node's rectangle makes it cover everything below and keeps the entries |
| `Gist.BulkLoad` | server/internal/core/index/gist_index.go:161-200 | the loaded tree holds exactly the entries given, every rectangle covers what is below, and it has at most two inner levels |
| `Gist.GroupInFours` | server/internal/core/index/gist_index.go:202-232 | at most four parents, which together hold what the children held, in order |
| `Gist.BuildInternal` | server/internal/core/index/gist_index.go:202-232 | the tree over the leaves holds what they held and covers it |
| `Gist.FlattenPermuted` | server/internal/core/index/gist_index.go:202-232 | sorting children changes the order of the entries only |
| `Gist.MissNothing` | server/internal/core/index/gist_index.go:387-401 | nothing below a rectangle that misses the query overlaps the query |
| `Gist.SearchesExact` | server/internal/core/index/gist_index.go:378-426 | both searches find what a scan of all entries finds, in the same order, for every query, inverted bounds included |
| `Gist.RemoveFromLeaf` | server/internal/core/index/gist_index.go:358-368 | the leaf loop drops the first entry of the row and says whether there was one |
| `Gist.RemoveNode` | server/internal/core/index/gist_index.go:358-376 | the removal walk computes the specified tree and stops at the first child that held the row |
| `Gist.RemoveDrops` | server/internal/core/index/gist_index.go:358-376 | a removal drops exactly that entry, and rectangles still cover what is left, an emptied leaf's stale one included |
| `Gist.RemoveEachKeeps` | server/internal/core/index/gist_index.go:351-376 | after any run of removals the tree holds the surviving entries in order |
| `Gist.SearchAfterDeletions` | server/internal/core/index/gist_index.go:142-426 | after a rebuild and any run of deletions SearchRange returns exactly the surviving rows that overlap the query, each once, and SearchOverlap returns the same list |
| `Gist.SearchRangeNode` | server/internal/core/index/gist_index.go:387-401 | the recursive walk appends exactly the specified answer to the result list |
| `Gist.SearchOverlapNode` | server/internal/core/index/gist_index.go:412-426 | the same for the overlap walk |
| `Gist.GistIndex.constructor` | server/internal/core/index/gist_index.go:78-85 | a new index answers for no rows |
| `Gist.GistIndex.Rebuild` | server/internal/core/index/gist_index.go:142-159 | a rebuilt index answers for the live rows, with no deletions |
| `Gist.GistIndex.RemoveRow` | server/internal/core/index/gist_index.go:351-356 | a removal adds the row to those the index no longer answers for |
| `Gist.GistIndex.SearchRows` | server/internal/core/index/gist_index.go:378-385 | a search of the object lists exactly the live, undeleted rows overlapping the query, each once |
| `Gin.PostAllOccurs` | server/internal/core/index/gin_index.go:142-160 | posting a row's tokens raises each count by the token's number of occurrences and changes no other row's count |
| `Gin.AddKeepsIffFresh` | server/internal/core/index/gin_index.go:142-160 | adding a row keeps the counts right exactly when the row was not there before or held no token |
| `Gin.RemoveErases` | server/internal/core/index/gin_index.go:162-182 | a removal takes every posting of the row out of every list and nothing else, order kept |
| `Gin.AddRemove` | server/internal/core/index/gin_index.go:142-182 | adding a fresh row and removing it restores the index, posting lists included |
| `Gin.HistoryInv` | server/internal/core/index/gin_index.go:142-182 | after any history of adds at free row numbers and removes, a row is posted under a token as often as it holds it |
| `Gin.PostedIffHeld` | server/internal/core/index/gin_index.go:142-182 | a row is in a token's list exactly when it holds the token |
| `Gin.Thin` | server/internal/core/index/gin_index.go:208-221 | the inner loops keep exactly the rows that are in the list |
| `Gin.Search` | server/internal/core/index/gin_index.go:184-229 | a search lists exactly the rows that hold every token of the query, each once; an empty query finds nothing |
| `Gin.DeduplicateSorted` | server/internal/core/index/gin_index.go:272-284 | in-place compaction of a sorted array leaves a strictly increasing prefix with the same members |
| `Gin.IntersectSorted` | server/internal/core/index/gin_index.go:286-301 | the two-pointer merge yields the strictly increasing intersection |
| `Gin.SortedDistinct` | server/internal/core/index/gin_index.go:250-264 | sorting and deduplicating a posting list keeps its members |
| `Gin.SearchContains` | server/internal/core/index/gin_index.go:231-270 | the sorted merge is strictly increasing and finds the same rows as Search |
| `Sets.RemoveFirst` | server/internal/core/index/gin_index.go:168-174 | the scan takes out the first occurrence only |
| `Gin.GinIndex.constructor` | server/internal/core/index/gin_index.go:29-39 | a new index is empty |
| `Gin.GinIndex.AddLocked` | server/internal/core/index/gin_index.go:142-160 | the object's new maps are the specified ones |
| `Gin.GinIndex.RemoveRow` | server/internal/core/index/gin_index.go:162-182 | the object's new maps are the specified ones |
| `Indexes.HashInsertIffFresh` | server/internal/core/index/hash_index.go:81-86 | an insert keeps lists and reverse map in agreement exactly when the position is not yet in the index |
| `Indexes.HashDeleteKeeps` | server/internal/core/index/hash_index.go:89-109 | a delete keeps them in agreement and takes out exactly that position |
| `Indexes.TakeOutKeeps` | server/internal/core/index/hash_index.go:89-109 | any removal that leaves the other positions of the list keeps agreement, whatever order it leaves them in |
| `Indexes.ValidAnswers` | server/internal/core/index/hash_index.go:68-78 | a lookup lists the positions whose key it is, each once |
| `Indexes.HashIndex.constructor` | server/internal/core/index/hash_index.go:31-39 | a new index is empty |
| `Indexes.HashIndex.Lookup` | server/internal/core/index/hash_index.go:68-78 | a copy of the list, and whether there is one |
| `Indexes.HashIndex.InsertKey` | server/internal/core/index/hash_index.go:81-86 | the object's new maps are the specified ones |
| `Indexes.HashIndex.DeletePosition` | server/internal/core/index/hash_index.go:89-109 | the object's new maps are the specified ones, the last element swapped into the gap |
| `Indexes.Find` | server/internal/core/index/hash_index.go:98-105 | the scan finds the first place of a position |
| `Indexes.SearchStrings` | server/internal/core/index/composite.go:152-183 | binary search over ascending keys finds where the key stands or would stand |
| `Indexes.LookupIsView` | server/internal/core/index/composite.go:152-161 | a lookup in the parallel lists is a lookup in the map they stand for |
| `Indexes.InsertAsHash` | server/internal/core/index/composite.go:169-183 | seen as a map, an insert is the hash index's insert |
| `Indexes.DeleteAsHash` | server/internal/core/index/composite.go:185-208 | seen as a map, a delete takes the same position out, order kept |
| `Indexes.CompositeInsertIffFresh` | server/internal/core/index/composite.go:169-183 | an insert keeps keys strictly ascending, lists non-empty and duplicate-free and the reverse map right exactly when the position is new |
| `Indexes.CompositeDeleteKeeps` | server/internal/core/index/composite.go:185-208 | a delete keeps all of that and takes out exactly that position |
| `Indexes.HistoriesValid` | server/internal/core/index/composite.go:163-208 | both indexes stay valid and agree with the live rows over any history of inserts at free positions and deletes |
| `Indexes.LookupsAgree` | server/internal/core/index/composite.go:152-208 | after any such history both indexes answer every lookup with the live positions of the key, each once |
| `Indexes.CollectEntries` | server/internal/core/index/composite.go:223-231 | the first loop of a rebuild collects each live row once |
| `Indexes.GroupSorted` | server/internal/core/index/composite.go:241-251 | grouping sorted neighbours gives valid parallel lists |
| `Indexes.InsertedGrouped` | server/internal/core/index/composite.go:241-251 | and these are the lists that inserting the entries one by one gives |
| `Indexes.InsertsLive` | server/internal/core/index/composite.go:210-252 | inserting the live rows one by one is a history of inserts at free positions |
| `Indexes.CompositeIndex.constructor` | server/internal/core/index/composite.go:27-34 | a new index is empty |
| `Indexes.CompositeIndex.Lookup` | server/internal/core/index/composite.go:152-161 | the list stored for the key, and whether there is one |
| `Indexes.CompositeIndex.InsertKey` | server/internal/core/index/composite.go:163-183 | the object's new slices are the specified ones |
| `Indexes.CompositeIndex.DeletePosition` | server/internal/core/index/composite.go:185-208 | the object's new slices are the specified ones |
| `Indexes.CompositeIndex.Rebuild` | server/internal/core/index/composite.go:210-252 | a rebuilt index is valid for the live rows and answers every lookup as inserting them one by one would |
| `Ast.LiteralKeeps` | server/internal/core/executor/tx_overlay.go:187-205 | a computed value survives the trip through a literal exactly when it has one of the five types |
| `Freezing.ClockFree` | server/internal/core/executor/tx_overlay.go:177-185 | an expression without volatile parts has one value, whatever the clock says |
| `Freezing.ClockFreeIff` | server/internal/core/executor/tx_overlay.go:177-185 | in every environment, an expression without IN lists and opaque forms that has a value keeps it under every clock, one that cannot be read included, exactly when it has no volatile part |
| `Readings.NotShown` | server/internal/core/executor/tx_overlay.go:177-185 | in every environment, an expression in which no reading gets to where it can be seen has one outcome under all readable clocks |
| `Readings.SettledIff` | server/internal/core/executor/tx_overlay.go:177-185 | for clocks that can always be read, an expression that can have a value has one outcome in every environment and on every row exactly when no reading gets to where it can be seen: to an operator other than IS NULL, a list search, a cast, a call or the result |
| `Freezing.Rowless` | server/internal/core/executor/tx_overlay.go:209-219 | what evaluates without a row asked for no column and has the same value on any row |
| `Freezing.FreezeKeepsMeaning` | server/internal/core/executor/tx_overlay.go:207-282 | the frozen form has, under every clock and on every row, the value (or error) the original has under the clock it was frozen by |
| `Freezing.FrozenVolatileIff` | server/internal/core/executor/tx_overlay.go:207-282 | freezing takes out every volatile call exactly except those under BETWEEN, CAST or a form it does not enter |
| `Freezing.FrozenSteadyIff` | server/internal/core/executor/tx_overlay.go:207-282 | so in every environment a frozen expression without IN lists and opaque forms that has a value keeps it under every clock exactly when no volatile call was sheltered from freezing |
| `Readings.FrozenSettledIff` | server/internal/core/executor/tx_overlay.go:207-282 | for clocks that can always be read, a frozen expression that can have a value has one outcome in every environment exactly when no volatile call was sheltered where its reading can be seen |
| `Readings.DriftsSheltered` | server/internal/core/executor/tx_overlay.go:279-281 | such a call is sheltered |
| `Readings.NullTestSheltered` | server/internal/core/executor/tx_overlay.go:279-281 | but a sheltered call need not be one: the reading in (NOW() IS NULL) BETWEEN a AND b is not looked at |
| `Freezing.ShelteredCallDrifts` | server/internal/core/executor/tx_overlay.go:279-281 | a concrete call under BETWEEN that is left as it was and changes its value with the clock |
| `WireCodec.RoundTrip` | server/internal/core/executor/tx_overlay.go:403-555 | encoding succeeds on exactly the supported forms, and decoding gives the expression back without column qualifiers |
| `WireCodec.RoundTripExactIff` | server/internal/core/executor/tx_overlay.go:412-413 | the round trip is the identity exactly on expressions without qualified columns |
| `WireCodec.EncodeAlikeIff` | server/internal/core/executor/tx_overlay.go:403-479 | two expressions share a wire form exactly when they differ in qualifiers only |
| `WireCodec.BareIff` | server/internal/core/executor/tx_overlay.go:403-479 | taking qualifiers off changes nothing exactly when there were none, and never changes the wire form |
| `PendingOps.OpRoundTrip` | server/internal/core/executor/tx_overlay.go:557-695 | an operation is written exactly when it is of a writable form (the error cases spelt out), and reading it back gives it without qualifiers, OR REPLACE and undo data |
| `PendingOps.RowsRoundTrip` | server/internal/core/executor/tx_overlay.go:569-581 | the same for the value lists of an INSERT |
| `PendingOps.AssignmentsRoundTrip` | server/internal/core/executor/tx_overlay.go:590-598 | the same for the assignments of an UPDATE |
| `PendingOps.RecodedEncodesAlike` | server/internal/core/executor/tx_overlay.go:557-629 | writing out a read-back operation gives the same line again |
| `TxBuffers.WriteOps` | server/internal/core/txmanager/manager.go:291-316 | the file gets the lines of all operations in order, or the first error |
| `TxBuffers.ReadLines` | server/internal/core/txmanager/manager.go:366-391 | reading a file decodes its lines in order, or gives the first error |
| `TxBuffers.AddMirrors` | server/internal/core/txmanager/manager.go:243-261 | an added operation is on file or in memory as in a buffer that never spills |
| `TxBuffers.RollbackMirrors` | server/internal/core/txmanager/manager.go:424-471 | a rollback cuts file and memory alike |
| `TxBuffers.RunMirrors` | server/internal/core/txmanager/manager.go:243-471 | over every history the buffer mirrors one that never spills, unless it is in its sticky error state |
| `TxBuffers.ReadIsLog` | server/internal/core/txmanager/manager.go:357-392 | for every threshold and every fault, reading the buffer gives every operation in order, as buffered or as written out, or the sticky error: none is silently lost |
| `TxBuffers.SpilledWritable` | server/internal/core/txmanager/manager.go:318-353 | only operations that can be written out ever get to the file |
| `TxBuffers.NeverFails` | server/internal/core/txmanager/manager.go:318-353 | the error state is entered only by a failing write or an operation that cannot be written |
| `TxBuffers.RollbackRestores` | server/internal/core/txmanager/manager.go:424-471 | for every threshold and every fault, after a savepoint, any actions above it and a rollback to it, the buffer reads as at the moment it was set, as buffered or as written out, or it reads as the sticky error |
| `TxBuffers.MarkRankedIff` | server/internal/core/txmanager/manager.go:394-404 | setting a name again keeps the savepoints ordered by position exactly when only savepoints of that moment follow it |
| `TxBuffers.SavepointsRankedIff` | server/internal/core/txmanager/manager.go:394-471 | for every threshold and every fault, savepoints are at every moment in order of position with none behind the end of the buffer, exactly when every name that is set again is followed only by savepoints of that moment |
| `TxBuffers.RepeatedNameLeftBehind` | server/internal/core/txmanager/manager.go:394-404 | a savepoint set again keeps its old place in the order and so survives a rollback to an earlier position, pointing behind the end |
| `TxBuffers.Transaction.constructor` | server/internal/core/txmanager/manager.go:190-212 | a new transaction has an empty buffer |
| `TxBuffers.Transaction.SpillToDisk` | server/internal/core/txmanager/manager.go:318-332 | the object's new state: all lines written and memory freed, or the sticky error and memory kept |
| `TxBuffers.Transaction.AddOp` | server/internal/core/txmanager/manager.go:243-261 | the object's new state, spilling at the threshold |
| `TxBuffers.Transaction.ReadOps` | server/internal/core/txmanager/manager.go:357-392 | the operations, or an error |
| `TxBuffers.Transaction.Savepoint` | server/internal/core/txmanager/manager.go:396-404 | the object's new savepoints |
| `TxBuffers.Transaction.ReleaseSavepoint` | server/internal/core/txmanager/manager.go:408-420 | the savepoint goes, the operations stay |
| `TxBuffers.Transaction.ForgetLater` | server/internal/core/txmanager/manager.go:456-469 | exactly the savepoints later in the order go |
| `TxBuffers.Transaction.RollbackToSavepoint` | server/internal/core/txmanager/manager.go:424-471 | the object's new state; it fails exactly on an unknown name, an unreadable buffer or a failing write |
| `TxOverlays.ApplyUpdatesToRow` | server/internal/core/executor/tx_overlay.go:148-160 | the row after the assignments in some order of the map |
| `TxOverlays.EvaluateAssignments` | server/internal/core/executor/tx_overlay.go:105-114 | the assignment values in a map where the last to a name counts, or the first error |
| `TxOverlays.UpdateRows` | server/internal/core/executor/tx_overlay.go:115-123 | matching rows are replaced in place, each by one the map of assignments can give, or the first error |
| `TxOverlays.DeleteRows` | server/internal/core/executor/tx_overlay.go:129-139 | rows that do not match are kept in order, or the first error |
| `TxOverlays.ApplyOne` | server/internal/core/executor/tx_overlay.go:87-142 | one operation on the rows, every payload error included |
| `TxOverlays.ApplyTxOverlay` | server/internal/core/executor/tx_overlay.go:43-145 | the overlay is a left fold of the table's operations over the committed rows; the schema is needed only if there is one |
| `TxOverlays.OrderIrrelevantIff` | server/internal/core/executor/tx_overlay.go:148-160 | every order of the map gives the row the assignments give in their own order exactly when different spellings of one column are given one value |
| `TxOverlays.ReplayDetermined` | server/internal/core/executor/tx_overlay.go:43-145 | when no UPDATE assigns to two spellings of one name, the overlay has one result, the specified replay |
| `TxOverlays.AssignedCell` | server/internal/core/executor/tx_overlay.go:151-158 | the cell an assignment goes to holds its value |
| `TxOverlays.KeptRowsExact` | server/internal/core/executor/tx_overlay.go:124-139 | a DELETE leaves exactly the rows its condition is false of |
| `TxOverlays.UpdatedRowsExact` | server/internal/core/executor/tx_overlay.go:100-123 | an UPDATE keeps the number and order of the rows and changes exactly those its condition is true of |
| `TxOverlays.ApplyQuiet` | server/internal/core/executor/tx_overlay.go:87-142 | an operation without volatile parts and subqueries, on a table without volatile computed columns, has the same possible results at any time |
| `TxOverlays.ApplyRecoded` | server/internal/core/executor/tx_overlay.go:557-695 | an operation that came back from the file has the same possible results, qualifiers dropped or not, on any table whose column names have no dot |
| `TxOverlays.ReplaySame` | server/internal/core/executor/tx_overlay.go:43-145 | for such operations neither the time of the replay nor a trip through the file can be seen in what it can return |
| `TxOverlays.FrozenQuietIff` | server/internal/core/executor/tx_overlay.go:284-341 | a frozen statement, INSERT ... SELECT included, does not look at the clock exactly when no volatile call was sheltered |
| `TxOverlays.OverlayIsLogReplay` | server/internal/core/executor/tx_overlay.go:43-145 | for every history of the buffer, every threshold and fault and any two moments, what can be read through the buffer is what the replay of the log can give, as long as the buffer can be read and no operation depends on the moment |
| `TxClocks.ApplySteadyIff` | server/internal/core/executor/tx_overlay.go:87-142 | in every environment, an operation without IN lists and opaque forms that succeeds has the same possible results under every other clock, one that cannot be read included, exactly when neither it nor a column it computes is volatile |
| `TxClocks.FrozenReplaySteadyIff` | server/internal/core/executor/tx_overlay.go:284-341 | so such a frozen operation has the same possible results under every clock exactly when no volatile call was sheltered and, for an INSERT, no computed column is volatile |
| `TxClocks.ApplySettledIff` | server/internal/core/executor/tx_overlay.go:87-142 | for clocks that can always be read, an operation that can succeed has the same possible results at every moment, in every environment and with all conversions and defaults, exactly when no reading gets to where it can be seen in it or in a column it computes |
| `TxClocks.FrozenReplaySettledIff` | server/internal/core/executor/tx_overlay.go:284-341 | so a frozen operation has the same possible results at every moment exactly when no volatile call was sheltered where its reading can be seen and, for an INSERT, no reading can be seen in a computed column |
| `TxClocks.NowColumnDrifts` | server/internal/core/executor/commands/dml/insert.go:573-593 | an INSERT without volatile calls into a table with a column GENERATED ALWAYS AS (NOW()) gives another row each time it is replayed |
| `TxCommits.UpdateMatchesIff` | server/internal/core/executor/commands/dml/update.go:120-183 | an UPDATE that commits is shown by the overlay as it is committed, whatever order it visits the assignments in, exactly when its values can be had without a row and different spellings of one column are given one value on the rows it hits |
| `TxCommits.UpdateMatchesByNames` | server/internal/core/executor/commands/dml/update.go:168-183 | when it hits a row and has no IN list in its values, exactly when no value mentions a column and different spellings of one column are given one value |
| `TxCommits.InsertMatchesIff` | server/internal/core/executor/types/catalog.go:326-343 | an INSERT that commits is shown as it is committed exactly when it leaves no auto-increment column NULL |
| `TxCommits.OverlayMatchesCommit` | server/internal/core/executor/commands/tx/tx.go:288-346 | where a transaction can be committed and gives different spellings of one column one value, everything it can read at any moment before is what the commit leaves in the table, or an error; and an error exactly when some UPDATE of the table needs a row for its values |
| `TxCommits.IncrementNotShown` | server/internal/core/executor/tx_overlay.go:105-114 | after UPDATE t SET x = x + 1 every read fails, although the commit adds one |
| `TxCommits.TwoSpellings` | server/internal/core/executor/tx_overlay.go:151-158 | after UPDATE t SET x = 1, X = 2 a read may show 1 or 2, although the commit leaves 2 |
| `TxCommits.OtherForms` | server/internal/core/executor/commands/dml/insert.go:193-205 | INSERT ... SELECT is shown as no rows, and ON CONFLICT and OR REPLACE as appended rows |
| `TxCommits.OrReplaceForgotten` | server/internal/core/executor/tx_overlay.go:557-590 | INSERT OR REPLACE that was spilled is committed as a plain INSERT |
| `TxCommits.CommitRecodedIff` | server/internal/core/executor/tx_overlay.go:557-695 | a trip through the file cannot be seen in the commit, whatever the storage does, exactly when the operation is not an INSERT OR REPLACE, on tables whose column names have no dot |
| `Correlation.ScopesAgree` | server/internal/core/executor/eval.go:75-175 | a value depends on the row only through the columns that occur |
| `Correlation.InjectMeaning` | server/internal/core/executor/eval_functions.go:183-260 | the rewritten condition on the subquery's row means the condition with the outer row looked up first |
| `Correlation.InjectedUsesOuterIff` | server/internal/core/executor/eval_functions.go:183-260 | after the rewriting the outer row is used no more, exactly except under BETWEEN or CAST |
| `Correlation.WrittenKeeps` | server/internal/core/executor/eval_functions.go:204-216 | an outer value is passed on unchanged exactly when it is an int, float, string or bool; NULL becomes a text |
| `Correlation.InjectMeaningUsual` | server/internal/core/executor/eval_functions.go:183-260 | under the usual inner-first rule the meaning is kept when no name is both an outer and an inner column |
| `Correlation.ScopesMatchIff` | server/internal/core/executor/eval_functions.go:183-260 | the rewriting finds in the two rows what the inner-first rule finds, for all rows with literal types in the outer one, exactly when no column of the condition is a name of both |
| `Correlation.ColumnKeptIff` | server/internal/core/executor/eval_functions.go:201-235 | a column keeps its usual meaning for all such rows exactly when the outer row or the subquery's table does not have the name, and for all rows whatever exactly when the outer row does not |
| `Correlation.InjectMeaningByNames` | server/internal/core/executor/eval_functions.go:183-260 | so a whole condition keeps its usual meaning when no name is a name of both and none is under BETWEEN or CAST |
| `Correlation.QualifiersIgnored` | server/internal/core/executor/eval_functions.go:201-235 | inner.id = outer.id compares the outer value with itself |
| `Correlation.BetweenNotRewritten` | server/internal/core/executor/eval_functions.go:257-260 | x BETWEEN 0 AND hi with hi from the outer row fails on a column the subquery does not have |
| `Parsing.ParseOr` | server/internal/core/parser/parse_utils.go:15-31 | OR: parsing ends, and on success the position has moved on and is still in front of the end marker |
| `Parsing.OrTail` | server/internal/core/parser/parse_utils.go:21-30 | the OR loop: parsing ends, and on success the position has moved on or stayed and is still in front of the end marker |
| `Parsing.ParseAnd` | server/internal/core/parser/parse_utils.go:33-49 | AND: parsing ends, and on success the position has moved on and is still in front of the end marker |
| `Parsing.AndTail` | server/internal/core/parser/parse_utils.go:39-48 | the AND loop: parsing ends, and on success the position has moved on or stayed and is still in front of the end marker |
| `Parsing.ParseNot` | server/internal/core/parser/parse_utils.go:51-61 | NOT: parsing ends, and on success the position has moved on and is still in front of the end marker |
| `Parsing.ParseComparison` | server/internal/core/parser/parse_utils.go:63-67 | a comparison: parsing ends, and on success the position has moved on and is still in front of the end marker |
| `Parsing.ComparisonTail` | server/internal/core/parser/parse_utils.go:69-283 | what follows the first operand: parsing ends, and on success the position has moved on or stayed and is still in front of the end marker |
| `Parsing.Operand` | server/internal/core/parser/parse_utils.go:102-106 | the second operand: parsing ends, and on success the position has moved on and is still in front of the end marker |
| `Parsing.InTail` | server/internal/core/parser/parse_utils.go:121-155 | an IN list: parsing ends, and on success the position has moved on or stayed and is still in front of the end marker |
| `Parsing.BetweenTail` | server/internal/core/parser/parse_utils.go:266-279 | BETWEEN bounds: parsing ends, and on success the position has moved on or stayed and is still in front of the end marker |
| `Parsing.ParseAdd` | server/internal/core/parser/parse_utils.go:285-302 | a sum: parsing ends, and on success the position has moved on and is still in front of the end marker |
| `Parsing.AddTail` | server/internal/core/parser/parse_utils.go:291-301 | the sum loop: parsing ends, and on success the position has moved on or stayed and is still in front of the end marker |
| `Parsing.ParseMul` | server/internal/core/parser/parse_utils.go:304-321 | a product: parsing ends, and on success the position has moved on and is still in front of the end marker |
| `Parsing.MulTail` | server/internal/core/parser/parse_utils.go:310-320 | the product loop: parsing ends, and on success the position has moved on or stayed and is still in front of the end marker |
| `Parsing.ParsePrimary` | server/internal/core/parser/parse_utils.go:323-360 | a primary: parsing ends, and on success the position has moved on and is still in front of the end marker |
| `Parsing.ParseName` | server/internal/core/parser/parse_utils.go:493-561 | a name: parsing ends, and on success the position has moved on or stayed and is still in front of the end marker |
| `Parsing.ParseCall` | server/internal/core/parser/parse_utils.go:562-644 | a call: parsing ends, and on success the position has moved on and is still in front of the end marker |
| `Parsing.ParseList` | server/internal/core/parser/parse_utils.go:802-821 | a list: on success the position has moved on and stands at the closing parenthesis |
| `Parsing.SkipBeforeDot` | server/internal/core/parser/parse_utils.go:544-556 | a bare old or new passes over the next token when a dot follows that one |
| `ParserMachines.Parser.constructor` | server/internal/core/parser/parser.go:65-66 | a parser starts at the first token, at depth 0 |
| `ParserMachines.Parser.Advance` | server/internal/core/parser/parse_utils.go:881-885 | the position moves by one and never passes the end marker |
| `ParserMachines.Parser.Consume` | server/internal/core/parser/parse_utils.go:850-856 | the token is taken exactly when it is the expected one |
| `ParserMachines.Parser.CheckDepth` | server/internal/core/parser/parser.go:395-404 | the depth counts up even when the limit is passed |
| `ParserMachines.Parser.ExitDepth` | server/internal/core/parser/parser.go:406-410 | the depth counts down to 0 at least |
| `ParserMachines.Parser.Disjunction` | server/internal/core/parser/parse_utils.go:15-31 | result and position are the grammar's; on success the depth is as before |
| `ParserMachines.Parser.Conjunction` | server/internal/core/parser/parse_utils.go:33-49 | the same for AND |
| `ParserMachines.Parser.Negation` | server/internal/core/parser/parse_utils.go:51-61 | the same for NOT |
| `ParserMachines.Parser.Comparison` | server/internal/core/parser/parse_utils.go:63-67 | the same for comparisons |
| `ParserMachines.Parser.AfterOperand` | server/internal/core/parser/parse_utils.go:69-283 | the same for what follows an operand |
| `ParserMachines.Parser.AfterNot` | server/internal/core/parser/parse_utils.go:156-254 | the same for NOT behind an operand |
| `ParserMachines.Parser.NullTest` | server/internal/core/parser/parse_utils.go:255-265 | the same for IS |
| `ParserMachines.Parser.RightOperand` | server/internal/core/parser/parse_utils.go:102-120 | the same for the second operand |
| `ParserMachines.Parser.Membership` | server/internal/core/parser/parse_utils.go:121-155 | the same for IN |
| `ParserMachines.Parser.Range` | server/internal/core/parser/parse_utils.go:266-279 | the same for BETWEEN |
| `ParserMachines.Parser.ValueList` | server/internal/core/parser/parse_utils.go:802-821 | the same for lists |
| `ParserMachines.Parser.Addition` | server/internal/core/parser/parse_utils.go:285-302 | the same for sums |
| `ParserMachines.Parser.Multiplication` | server/internal/core/parser/parse_utils.go:304-321 | the same for products |
| `ParserMachines.Parser.Primary` | server/internal/core/parser/parse_utils.go:323-360 | the same for primaries; the depth never passes the limit by more than the failing step |
| `ParserMachines.Parser.Name` | server/internal/core/parser/parse_utils.go:493-561 | the same for names |
| `ParserMachines.Parser.Arguments` | server/internal/core/parser/parse_utils.go:562-644 | the same for calls |
| `Printing.PrintReadsBack` | server/internal/core/parser/parser.go:69-158 | a printed expression of the grammar's ranks is read back as it was exactly when groups and calls are nested at most 32 deep, and fails to parse otherwise |
| `Printing.ReadPrimary` | server/internal/core/parser/parse_utils.go:323-360 | the tokens of a printed primary, in any context that does not continue it, parse to it or fail by depth |
| `Printing.ReadProduct` | server/internal/core/parser/parse_utils.go:304-321 | the same for products, up to the loop that may continue them |
| `Printing.ReadSum` | server/internal/core/parser/parse_utils.go:285-302 | the same for sums |
| `Printing.ReadComparison` | server/internal/core/parser/parse_utils.go:63-283 | the same for comparisons, LIKE, IS NULL, IN and BETWEEN |
| `Printing.ReadNot` | server/internal/core/parser/parse_utils.go:51-61 | the same for negations |
| `Printing.ReadList` | server/internal/core/parser/parse_utils.go:802-821 | the same for lists |
| `Printing.LayOut` | server/internal/core/parser/parser.go:70-158 | printing lays the tokens of every part out in order |
| `PrintingExact.OrCovers` | server/internal/core/parser/parse_utils.go:13-61 | on tokens without CASE and the like, what any level of the parser consumes is balanced in its parentheses, and the AND and OR it makes nodes of are the connectives outside parentheses that no BETWEEN uses up |
| `PrintingExact.RankNot` | server/internal/core/parser/parse_utils.go:51-360 | from tokens grouped as printing groups them, the parser only builds expressions of the grammar's ranks |
| `PrintingExact.PrintedPiece` | server/internal/core/parser/parser.go:70-158 | every printed expression, ranked or not, is made of such tokens |
| `PrintingExact.ReadsBackIff` | server/internal/core/parser/parser.go:69-158 | printing and parsing gives an expression back exactly when its operators are ranked as the grammar ranks them, its literals are plain, its IN lists not empty, its calls in upper case and no aggregates, and its groups and calls at most 32 deep |
| `PrintingLimits.SumTimesRegrouped` | server/internal/core/parser/parser.go:75-78 | a product of a sum comes back as a sum with a product |
| `PrintingLimits.NegationRegrouped` | server/internal/core/parser/parser.go:83-84 | a negation compared with something comes back as the negation of the comparison |
| `PrintingLimits.LiteralReadsBackIff` | server/internal/core/parser/parser.go:203-221 | a literal is read back as it was exactly when it has one of the five tags, its other fields are empty, and a float has a fraction |
| `PrintingLimits.WholeFloatChangesType` | server/internal/core/parser/parser.go:209-210 | a whole float comes back as an integer |
| `Checks.CheckAgrees` | server/internal/core/executor/eval.go:474-552 | where a condition has a value as a WHERE condition, the CHECK evaluator gives the same |
| `Checks.CheckFindAgrees` | server/internal/core/executor/eval.go:513-537 | the same for its own list search, which passes over items that cannot be compared |
| `Checks.StoredCheckMeansDeclared` | server/internal/core/executor/eval.go:462-472 | a CHECK means what was declared after the trip through its printed text |
| `Checks.CheckNullTestIff` | server/internal/core/executor/eval.go:477-486 | x IS NULL and x IS NOT NULL in a CHECK are false of every row, so they mean what was declared exactly on values and on NULL respectively |
| `Checks.CheckLikeFails` | server/internal/core/executor/eval/operators.go:259-276 | LIKE in a CHECK is false of every two texts |
| `RecursiveCte.Absorb` | server/internal/core/executor/cte.go:296-304 | one round keeps all rows found so far, in place |
| `RecursiveCte.AbsorbFacts` | server/internal/core/executor/cte.go:296-304 | and adds each new key once, and nothing the member did not yield |
| `RecursiveCte.Execute` | server/internal/core/executor/cte.go:221-323 | the loop with its visited map computes the specified evaluation, the error cases included |
| `RecursiveCte.SuccessClosed` | server/internal/core/executor/cte.go:254-323 | on success the anchor comes first and unchanged, every derived row was new, and the member finds only keys already there |
| `RecursiveCte.KeysTellRows` | server/internal/core/executor/cte.go:325-329 | rows of one width, one of them without NUL, are told apart by their keys |
| `RecursiveCte.KeyFixesRowIff` | server/internal/core/executor/cte.go:325-329 | no other row of the width has a row's key exactly when there is one column or no NUL in it |
| `RecursiveCte.NulMergesRows` | server/internal/core/executor/cte.go:325-329 | a concrete pair of rows with one key, of which the second is lost |
| `RecursiveCte.ResultClosed` | server/internal/core/executor/cte.go:221-323 | for rows of one column or without NUL, the result contains the anchor, is closed under the recursive member and holds each derived row once |
| `RecursiveCte.ResultLeast` | server/internal/core/executor/cte.go:221-323 | for a monotone member they are the least such rows |
| `RecursiveCte.SucceedsWithinLimit` | server/internal/core/executor/cte.go:254-314 | evaluation succeeds exactly when one of the first hundred rounds finds nothing new, and returns what was found by then |
| `ResultCaches.NewLimits` | server/internal/core/executor/result_cache.go:38-51 | sizes and times that are not positive are replaced |
| `ResultCaches.IdealIsLatest` | server/internal/core/executor/result_cache.go:54-140 | a limitless cache holds a result exactly when some put stored it and no later call replaced or invalidated it |
| `ResultCaches.RunInv` | server/internal/core/executor/result_cache.go:54-153 | after any history map and list hold the same entries, within the limit, ordered by recency, each as a limitless cache would hold it |
| `ResultCaches.HitIsLatest` | server/internal/core/executor/result_cache.go:54-77 | a hit is the most recent result put for the key, no older than the time to live, none of its tables invalidated since |
| `ResultCaches.LossesExcused` | server/internal/core/executor/result_cache.go:80-115 | a result is missing only if it was found expired or at least maxSize other keys have been used since it was |
| `ResultCaches.Affected` | server/internal/core/executor/result_cache.go:122-128 | the entries an invalidation collects are exactly those that read the table |
| `ResultCaches.ResultCache.constructor` | server/internal/core/executor/result_cache.go:38-51 | a new cache is empty |
| `ResultCaches.ResultCache.Lookup` | server/internal/core/executor/result_cache.go:54-77 | the answer, the object's new state and its counters |
| `ResultCaches.ResultCache.Store` | server/internal/core/executor/result_cache.go:80-115 | the object's new state, with the eviction loop |
| `ResultCaches.ResultCache.RemoveEntries` | server/internal/core/executor/result_cache.go:149-153 | exactly the given entries leave map and list |
| `ResultCaches.ResultCache.InvalidateTable` | server/internal/core/executor/result_cache.go:118-132 | the object's new state |
| `ResultCaches.ResultCache.InvalidateAll` | server/internal/core/executor/result_cache.go:135-140 | the object is empty |
| `StatementCaches.NormIsTrimAndLower` | server/internal/core/parser/parser.go:44-46 | lowering then trimming is trimming then lowering |
| `StatementCaches.EqualTrimmedAndLower` | server/internal/core/parser/cache.go:128-143 | the byte loop decides equality with the normalised text |
| `StatementCaches.HashLower` | server/internal/core/parser/cache.go:110-126 | the hash loop is FNV-1a on 64 bits over the normalised text, so it depends on nothing else |
| `StatementCaches.PutKeeps` | server/internal/core/parser/cache.go:60-83 | a put keeps every mapped element in the list and the list within capacity, answers with its statement, and changes no other hash's mapping but by eviction |
| `StatementCaches.EvictedKeeps` | server/internal/core/parser/cache.go:76-93 | the eviction loop makes room and only unmaps |
| `StatementCaches.RunKeeps` | server/internal/core/parser/cache.go:40-108 | over every history a mapped hash holds the latest put of any text with that hash |
| `StatementCaches.HitIsLatestPut` | server/internal/core/parser/cache.go:40-56 | whatever collides, a hit is the statement of the latest put of the same normalised text |
| `StatementCaches.CacheTransparentIffCaseBlind` | server/internal/core/parser/parser.go:31-42 | parsing through the cache is parsing, after every history, exactly when the parser cannot tell apart texts of one normal form |
| `StatementCaches.LiteralsAreNotCaseBlind` | server/internal/core/parser/parser.go:31-46 | a parser that keeps the case of string literals is not such a parser |
| `StatementCaches.ReachableIffCollisionFree` | server/internal/core/parser/cache.go:75-93 | the list is free of dead elements after every history exactly when no two texts collide |
| `StatementCaches.CollisionOrphans` | server/internal/core/parser/cache.go:75-83 | two colliding puts leave one |
| `StatementCaches.OrphanUnmapsLive` | server/internal/core/parser/cache.go:75-93 | and when the dead element is evicted, the statement that replaced it is no longer found, although it is still listed |
| `StatementCaches.StatementCache.constructor` | server/internal/core/parser/cache.go:26-35 | an empty cache; a capacity that is not positive becomes 256 |
| `StatementCaches.StatementCache.MoveToFront` | server/internal/core/parser/cache.go:54 | the element goes to the front, the others keep their order |
| `StatementCaches.StatementCache.Lookup` | server/internal/core/parser/cache.go:40-56 | the answer and the object's new state |
| `StatementCaches.StatementCache.Evict` | server/internal/core/parser/cache.go:86-93 | the last element goes and its hash is unmapped |
| `StatementCaches.StatementCache.Store` | server/internal/core/parser/cache.go:60-83 | the object's new state, with the eviction loop |
| `StatementCaches.StatementCache.Clear` | server/internal/core/parser/cache.go:103-108 | nothing is mapped or listed |
| `StatementCaches.StatementCache.Parse` | server/internal/core/parser/parser.go:32-42 | the answer and the object's new state; failed parses are not stored |
| `RateLimits.Steady` | server/internal/httpserver/ratelimit.go:46-67 | a rate refills additively and never takes away |
| `RateLimits.StepAvailable` | server/internal/httpserver/ratelimit.go:70-106 | an event takes one token from the key it admits, fills a key it drops and leaves every other key alone |
| `RateLimits.Conserved` | server/internal/httpserver/ratelimit.go:88-98 | what a stretch admits was there at its start, came with time, or came with a dropped bucket |
| `RateLimits.ThrottleBound` | server/internal/httpserver/ratelimit.go:70-106 | in any stretch of any history a key gets at most one burst, plus one per dropped bucket, plus the rate times the time |
| `RateLimits.AllowedIffAffordable` | server/internal/httpserver/ratelimit.go:70-106 | a request is admitted exactly when every stretch since the bucket was last dropped can afford it |
| `RateLimits.CleanupSlims` | server/internal/httpserver/ratelimit.go:173-183 | when an idle span fills a bucket, the cleanup takes out only full buckets of keys older than all that stay |
| `RateLimits.SlimsRun` | server/internal/httpserver/ratelimit.go:70-183 | a table without such keys gives the same answers under every further history of requests, evictions of the oldest and cleanups: a full table evicts those keys first |
| `RateLimits.CleanupKeepsAnswer` | server/internal/httpserver/ratelimit.go:70-183 | so a cleanup anywhere in a history changes no later answer |
| `RateLimits.CleanupShows` | server/internal/httpserver/ratelimit.go:173-183 | otherwise a key that is used up, waits past the idle limit and asks again gets more with the cleanup than without |
| `RateLimits.CleanupInvisibleIff` | server/internal/httpserver/ratelimit.go:173-183 | a cleanup at any point of any history changes no later answer, whatever requests, evictions and cleanups follow, exactly when 300 seconds of refill make a burst |
| `RateLimits.RateLimiter.constructor` | server/internal/httpserver/ratelimit.go:46-67 | the defaults for rate and burst |
| `RateLimits.RateLimiter.EvictOldest` | server/internal/httpserver/ratelimit.go:116-131 | visited in any order, the victim was used least recently, while no key is empty |
| `RateLimits.RateLimiter.Refill` | server/internal/httpserver/ratelimit.go:88-93 | the refilled level is what the model says is available |
| `RateLimits.RateLimiter.MakeRoom` | server/internal/httpserver/ratelimit.go:75-79 | room is made for a new key, within the limit while no key is empty |
| `RateLimits.RateLimiter.Allow` | server/internal/httpserver/ratelimit.go:70-106 | the answer and the object's new table; the key evicted is one used least recently, while no key is empty |
| `RateLimits.RateLimiter.CleanUp` | server/internal/httpserver/ratelimit.go:173-183 | exactly the buckets idle for more than 300 seconds go |
| `Audit.VerifyChain` | server/internal/core/audit/table_log.go:163-178 | the verdict is acceptance of the chain; on refusal the count is the first broken entry |
| `Audit.RechainedAccepted` | server/internal/core/audit/table_log.go:182-236 | sealing entries again gives an accepted chain with the same fields |
| `Audit.StepIntact` | server/internal/core/audit/table_log.go:78-236 | appends and truncations, failing ones included, keep the chain acceptable and the remembered hash right |
| `Audit.HistoryAccepted` | server/internal/core/audit/table_log.go:78-236 | every history of them from an empty table is accepted, as long as no restart happens over a non-empty table |
| `Audit.RestartBreaksChain` | server/internal/core/audit/table_log.go:31-33 | after a restart over an accepted table the next append is accepted exactly when the table was empty |
| `Audit.LastHashFixesChain` | server/internal/core/audit/log.go:23-29 | an accepted chain with fields free of bars is the only accepted chain with its last hash, whatever the length and fields of the other, for a collision-free hash with hexadecimal digests |
| `Audit.PayloadFixesEntryIff` | server/internal/core/audit/log.go:23-29 | after a bar-free previous hash, no entry with other fields is hashed as the same text exactly when the entry's fields are free of bars |
| `Audit.TamperEvidentIff` | server/internal/core/audit/table_log.go:163-178 | the last hash vouches for every entry of an accepted chain exactly when its fields are free of bars |
| `Audit.BarsHideTampering` | server/internal/core/audit/log.go:23-29 | an accepted chain with a bar in an entry can be changed in that entry and is accepted with the same last hash |
| `Audit.TableLog.constructor` | server/internal/core/audit/table_log.go:31-33 | a new log over existing rows remembers no hash |
| `Audit.TableLog.AppendEntry` | server/internal/core/audit/table_log.go:78-119 | the object's new state, the failing insert included |
| `Audit.TableLog.Truncate` | server/internal/core/audit/table_log.go:182-236 | the object's new state for every fault, and exactly when it succeeds |
| `Auth.NamedStaysRevoked` | server/internal/auth/manager.go:315-327 | a revoked token that was registered by name stays revoked over every history |
| `Auth.RevokedForever` | server/internal/auth/manager.go:315-564 | a revoked token is refused after every further history exactly when it was registered by name |
| `Auth.Manager.constructor` | server/internal/auth/manager.go:242-285 | configured tokens are registered by name |
| `Auth.Manager.AddToken` | server/internal/auth/manager.go:513-530 | the object's new maps |
| `Auth.Manager.RevokeToken` | server/internal/auth/manager.go:315-327 | the object's new maps |
| `Auth.Manager.PurgeExpired` | server/internal/auth/manager.go:475-491 | exactly the old revocations of tokens not registered by name go |
| `Auth.Manager.LookupValid` | server/internal/auth/manager.go:545-564 | the scan accepts exactly registered tokens that are not revoked |

## Left out

- Storage engine, write-ahead log, page and MVCC code, the optimistic commit and its locks: the overlay and the commit are modelled over a given list of rows, whose order in storage is not captured.
- Row-level security, triggers, cascades, partitions, foreign keys and index lookups at commit: constraints are an arbitrary predicate, the rest would add storage, not harder claims.
- TxCommits.OverlayMatchesCommit: ON CONFLICT, OR REPLACE and INSERT ... SELECT are arbitrary in the commit and outside the theorem, as are statements with subqueries or volatile calls left in them and assignment values with opaque forms.
- The shell, the clients, HTTP handlers, TLS, configuration, logging, metrics, backup and key management: plumbing around library calls.
- The GiST index's incremental insert and splits: two slices share one backing array there, so a later append to one half writes into the other; only rebuilding, deleting and searching are modelled.
- The GIN index's tokenizers, key search and saved JSON values, and the composite index's key formatting: they would add string functions, not harder claims.
- The lexer: printing is modelled as the tokens its text is read back as, so quotes inside string literals and names that are keywords are outside the model.
- Subqueries, CASE, JSON operators, window functions and aggregates in the parser and evaluator: one opaque form each, on which the parser model fails and evaluation is an arbitrary function.
- Printing.PrintReadsBack: covers unqualified columns other than `old`, `new`, `distinct` and the CURRENT names, qualified columns with a plain qualifier, and calls in upper case; the printer's other forms are not read back the same.
- PrintingExact.ReadsBackIff: covers all forms the model looks into, with plain names; CAST and the opaque forms are not printed back.
- Parsing.ParseName: the branch for DATE, TIME and TIMESTAMP literals is not modelled, because the lexer makes these words keywords and no identifier enters it.
- Parsing.ParseCall: calls with a star or DISTINCT and aggregates fail in the model.
- ParserMachines.Parser.Name: as Parsing.ParseName.
- ParserMachines.Parser.Arguments: as Parsing.ParseCall.
- The JSON layer of the spill format: a wire record stands for its text, so floats that JSON cannot write and invalid UTF-8 are not captured.
- Freezing.ShelteredCallDrifts: that the two readings compare differently is an assumption, because comparison is arbitrary.
- TxOverlays.ApplyRecoded: qualified columns are covered on tables whose column names have no dot and without OLD and NEW rows.
- Freezing.FreezeKeepsMeaning: does not cover arguments of volatile calls that hold subqueries or other opaque forms.
- RaftSafety.ElectionSafety: membership is fixed and the 64-bit term does not wrap within the run.
- RateLimits.RateLimiter.EvictOldest: with an empty key in the table the victim may be any key or none, as in the code.
- In-place update of GiST nodes and of the overlay's row slice is modelled on values, so aliasing between slices is not captured.
- StatementCaches.LiteralsAreNotCaseBlind: that the parser keeps the case of a literal is an assumption, because the cache is modelled for every parser.
- Checks.StoredCheckMeansDeclared: leaves out LIKE and IS NULL, of which the CHECK is false, and conditions that err as a WHERE condition.
- Correlation.InjectMeaningByNames: one way only, because a condition may ignore the value of a column that is found in the wrong row; per column and for the rows as a whole the condition is exact.
- The optimizer, plan cache, B-tree wrapper, set-operation precedence, two-phase commit, masking, full-text ranking and connection pool: easy claims, external libraries or no clean guarantee.
