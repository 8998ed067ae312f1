# A verified model of the repository's protocol and algorithm cores

The repository collects small projects. This project models the parts that hold a protocol or an algorithm and
proves what they promise, over every input, every interleaving or every run. `dafny verify dfyconfig.toml` checks it.

- **Calculator parser** (`LalrTables`, `CalcGrammar`, `CalcParser`, `CalcLoop`, `CalcRuns`, `CalcComplete`,
  `CalcNeat`, `CalcRender`): the bison loop over its packed tables. The tables are decoded to an automaton, the loop is proved against the automaton, and the
  automaton against the grammar and the declared precedences: it accepts exactly the grammar's language, finds the one
  derivation that respects the precedences, prints the values of its lines, and undoes rendering. Arithmetic is a
  parameter.
- **Lock-free queue** (`SpmcQueue`, `SpmcTheorems`, `SpmcProgress`, `SpmcLoss`, `SpmcRecovery`, `SpmcAnswers`): one
  producer and any number of consumers, one step per atomic access. Delivery is exactly once and in order and every
  operation left alone answers; elements can be lost, and it is proved exactly when.
- **Compiler algorithms** (`SubsetConstruction`, `Liveness`): the subset table is exact if and only if the unclosed seed
  was closed; the in-place liveness loop computes path liveness.
- **RPC client** (`RpcClient`, `RpcReplies`): the life of a call under two locks, replies, cancellation and shutdown.
- **Cache** (`GeeCache`, `ConsistentHash`): byte-weighted LRU used read-through, and the hash ring.
- **Object storage** (`Wire`, `Framing`, `ObjectStore`): wire format, chunk-tolerant framing, atomic PUT and DELETE.
- **Coroutine channel** (`Channel`, `ChannelRuns`), **tree codec** (`TreeCodec`), **bucket list** (`AllOne`), **trie router**
  (`TrieRouter`, `TriePaths`, `TrieSound`, `TrieComplete`, `TrieParams`, `TrieNodes`) and **thread pool** (`ThreadPool`).

Concurrent code is a step function over a state and a schedule of events; theorems quantify over all schedules. Objects
that change in place are classes whose methods are proved against functions on values.

Where a natural claim is false, the project states when it holds:

- `try_pop` loads `write_pos` before `next_segment`, so a segment that fills in between can be skipped. Every capacity
  has such a schedule (`EveryCapacityCanLose`); a step strands an element exactly when `StrandsExactly` says, and a
  stranded element is lost for good exactly when `RecoverableIff` says.
- `solve` seeds the worklist with the unclosed set {1} (`TableIsExactIff`).
- A request key with a NUL byte is cut on the wire (`RequestRoundTrip`).
- Keys are not checked, so "a" and "/a" (or "./a") are two objects in one file, and a key plus ".tmp" is
  another key's temporary file (`AliasLosesData`, `SlashAliases`, `ClashLosesData`); the promise holds exactly where files are apart
  (`AtomicIffApart`).
- `writeData` calls `fsync` without flushing the stdio buffer, so a failing `fclose` cuts an object whose PUT has answered
  OK (`FlushLosesData`); runs are atomic exactly if that does not happen (`RunIsAtomicIff`).
- GET of a key that has metadata but no file seeks on a null stream before the null check; runs reach that state exactly
  where one request can take away another key's file (`ClashCrashes`, `AliasCrashes`, `CrashFreeIff`).
- A literal route registered after a parameter at the same place takes over the parameter's node
  (`CaptureBreaksMatching`, `SoundIffCovered`); a star route registered there loses the longer paths
  (`CapturedStarIsLost`), and the empty pattern is never found and clears the root route
  (`EmptyPatternIsNotFound`, `EmptyPatternClearsRoot`); `CompleteIff` says exactly when nothing is lost.

## Model

| member | source | states |
|---|---|---|
| `LalrTables.TablesEncodeActions` | compiler/lab3/y.tab.c:466-534 | for every state and token, the packed action tables decode to the automaton whose conflicts are resolved by the declared precedences |
| `LalrTables.TablesEncodeGotos` | compiler/lab3/y.tab.c:482-530 | the packed goto tables decode to the automaton's transition wherever it has one |
| `LalrTables.NoErrorShift` | compiler/lab3/y.tab.c:1399-1437 | no state can shift the error token, so recovery always empties the stack and aborts |
| `CalcGrammar.TablesEncodeRules` | compiler/lab3/y.tab.c:466-534 | `yyr1` and `yyr2` are the left-hand side and right-hand side length of each rule of the grammar file |
| `CalcParser.PathSpellsRhs` | compiler/lab3/y.tab.c:1192-1299 | on every stack that is a path of the automaton and ends in a reducing state, the rule's right-hand side lies on top and a goto exists below it: no reduction pops below the bottom |
| `CalcParser.StepKeeps` | compiler/lab3/y.tab.c:1037-1299 | every shift or reduction keeps the stack a labelled path of the automaton, and the tokens derived by the stack plus the unread ones stay the input |
| `CalcParser.StepDecreases` | compiler/lab3/y.tab.c:1037-1299 | every step reads a token or makes the stack lighter, so every parse ends |
| `CalcParser.RunSound` | compiler/lab3/y.tab.c:1037-1299 | an accepted input is derived by the grammar from the tree on the stack, and the printed expressions are that tree's lines in order |
| `CalcLoop.Decide` | compiler/lab3/y.tab.c:1116-1190 | fetches a token only where the state needs one and decides as the automaton does on the lookahead, losing no token |
| `CalcLoop.Reduction` | compiler/lab3/y.tab.c:1192-1299 | pops both stacks by the rule and pushes the goto state, keeping each stacked value the value of its derivation |
| `CalcLoop.ActionComputesValue` | compiler/lab3/y.tab.c:1209-1266 | every rule's action turns the values of its right-hand side into the value of the derivation, and the line rule prints its expression's value |
| `CalcLoop.Recover` | compiler/lab3/y.tab.c:1399-1437 | error recovery finds no state to resume in and pops down to the bottom |
| `CalcLoop.Yyparse` | compiler/lab3/y.tab.c:1037-1457 | the table loop over state and value stacks accepts exactly the runs of the automaton that accept, and prints the values of the derived lines |
| `CalcRender.RenderParses` | compiler/lab3/lab3_3150102210.y:8-28 | every sequence of expression lines, parenthesised by precedence and associativity only where needed, is accepted and parsed to the expressions' own derivations |
| `CalcRender.RoundTrip` | compiler/lab3/y.tab.c:1116-1299 | rendering lines of expressions and parsing the text prints the expressions' values and nothing else |
| `CalcComplete.AcceptsDerivable` | compiler/lab3/lab3_3150102210.y:13-28 | every token string that the grammar derives is accepted |
| `CalcComplete.AcceptsIffDerivable` | compiler/lab3/y.tab.c:1037-1457 | the parser accepts exactly the language of the grammar |
| `CalcParser.TablesEncodeAccess` | compiler/lab3/y.tab.c:466-534 | `yystos` is the accessing symbol of each state |
| `CalcNeat.AcceptedIsNeat` | compiler/lab3/lab3_3150102210.y:8-28 | whatever is accepted is parsed to a derivation in which no operand is weaker than precedence and associativity allow without parentheses; only a negation may follow any operator |
| `CalcNeat.NeatIsFound` | compiler/lab3/y.tab.c:1037-1299 | parsing the text of such a derivation finds that derivation |
| `CalcNeat.FindsTheNeatDerivation` | compiler/lab3/lab3_3150102210.y:8-28 | the tree of an accepted parse is the text's only such derivation |
| `SpmcQueue.StepKeeps` | opencode-demo2/include/SPMCQueue.h:121-330 | every load, store and compare-and-swap of every thread keeps the queue invariant |
| `SpmcQueue.RunKeeps` | opencode-demo2/include/SPMCQueue.h:121-330 | the invariant holds after every interleaving |
| `SpmcTheorems.ExactlyOnceInOrder` | opencode-demo2/include/SPMCQueue.h:283-330 | in every interleaving, pops return published elements, each consumer's in push order, and no slot is returned twice |
| `SpmcTheorems.LogIsPushOrder` | opencode-demo2/include/SPMCQueue.h:121-165 | published elements are the elements of the started pushes in order; no push of the single producer fails |
| `SpmcTheorems.FalseMeansEmpty` | opencode-demo2/include/SPMCQueue.h:289-308 | every false that `try_pop` answers follows a load of `write_pos` at which nothing was unread from the head on; that it does answer is `PopsAreAnswered` and `PopAlone` |
| `SpmcAnswers.PopsAreAnswered` | opencode-demo2/include/SPMCQueue.h:283-330 | in every run the pops started are those that returned an element, those that answered false and those in progress |
| `SpmcAnswers.SoloReturns` | opencode-demo2/include/SPMCQueue.h:287-330 | a consumer that is left alone in the middle of a pop returns within a bounded number of its own steps, with one answer |
| `SpmcAnswers.PopAlone` | opencode-demo2/include/SPMCQueue.h:283-330 | a pop that runs alone returns the oldest element unread from the head on, and false if and only if there is none |
| `SpmcAnswers.PushReturns` | opencode-demo2/include/SPMCQueue.h:121-165 | the producer, which never waits, finishes a push within seven steps of its own, with the element published |
| `SpmcAnswers.SegmentsAreCounted` | opencode-demo2/include/SPMCQueue.h:128-149 | in every run `total_segments` is the number of linked segments, less the one whose producer is about to count it |
| `SpmcTheorems.Conservation` | opencode-demo2/include/SPMCQueue.h:129-149 | a slot is pushed exactly if it is popped, being popped, unread from the head on, or stranded behind the head, and these classes are disjoint |
| `SpmcTheorems.StrandsExactly` | opencode-demo2/include/SPMCQueue.h:288-306 | a step first strands an element exactly when it swings the head off an undrained segment, and only after a stale load of `write_pos` |
| `SpmcTheorems.FreshRunsStrandNothing` | opencode-demo2/include/SPMCQueue.h:288-306 | runs in which no head swing relies on a stale `write_pos` strand nothing |
| `SpmcProgress.RunStrandsExactly` | opencode-demo2/include/SPMCQueue.h:288-306 | a run strands nothing at any time if and only if no step swings the head off an undrained segment |
| `SpmcProgress.LoadIsUnclaimed` | opencode-demo2/include/SPMCQueue.h:288-289 | loading `read_pos` finds the slot at that position unclaimed |
| `SpmcProgress.ClaimFailsOnlyToRival` | opencode-demo2/include/SPMCQueue.h:307-330 | in every run a claim fails if and only if another consumer's claim of the same slot succeeded since |
| `SpmcTheorems.AtomicLoadsLoseNothing` | opencode-demo2/include/SPMCQueue.h:288-306 | with the three position loads in one step, nothing is ever stranded |
| `SpmcTheorems.AtomicRunsAreRuns` | opencode-demo2/include/SPMCQueue.h:283-330 | runs with combined loads are runs of the queue |
| `SpmcLoss.StrandedForGood` | opencode-demo2/include/SPMCQueue.h:283-330 | a slot stranded while every consumer is at or past the head is popped in no continuation |
| `SpmcRecovery.RunOnPassed` | opencode-demo2/include/SPMCQueue.h:283-330 | once the head has passed a segment, its read position plus the consumers still working on it never grows |
| `SpmcRecovery.Recovers` | opencode-demo2/include/SPMCQueue.h:307-330 | as many lagging consumers as there are unread slots up to a stranded one bring it back |
| `SpmcRecovery.RecoverableIff` | opencode-demo2/include/SPMCQueue.h:283-330 | a stranded slot is popped in some continuation if and only if its index is below the read position plus the number of consumers still working on its segment |
| `SpmcLoss.EveryCapacityCanLose` | opencode-demo2/include/SPMCQueue.h:289-303 | for every segment capacity a schedule loses a whole segment for good |
| `SpmcLoss.SizeAtRest` | opencode-demo2/include/SPMCQueue.h:336-338 | with no operation in progress, `size()` is pushes minus claims modulo the word size |
| `SubsetConstruction.GetMove` | compiler/Homework_2_5_b.java:145-162 | the states reached from the set by one edge with the letter, and no others |
| `SubsetConstruction.GetEClosure` | compiler/Homework_2_5_b.java:116-143 | exactly the states reachable by epsilon paths; the stack loop ends |
| `SubsetConstruction.Expand` | compiler/Homework_2_5_b.java:129-140 | processing one popped state keeps every explored state's epsilon successors in the closure and adds only reachable states |
| `SubsetConstruction.Solver.Solve` | compiler/Homework_2_5_b.java:89-113 | the worklist empties, rows hold the automaton's moves, and every recorded set has a row for each letter |
| `SubsetConstruction.Solver.Visit` | compiler/Homework_2_5_b.java:97-109 | marks a set, lists its two successors and queues those not yet marked |
| `SubsetConstruction.VisitKeepsTable` | compiler/Homework_2_5_b.java:95-110 | one turn of the worklist loop keeps the table correct and closed up to the remaining work |
| `SubsetConstruction.VisitMakesProgress` | compiler/Homework_2_5_b.java:95-110 | each turn marks a new subset or shrinks the worklist |
| `SubsetConstruction.TableIsDeterministicAndTotal` | compiler/Homework_2_5_b.java:89-113 | rows for the same state and letter agree, and every recorded state has a recorded successor for each letter |
| `SubsetConstruction.FollowIsDelta` | compiler/Homework_2_5_b.java:89-113 | following the table on a word never gets stuck and applies the subset transition letter by letter |
| `SubsetConstruction.DeltaIsReach` | compiler/Homework_2_5_b.java:116-162 | from a closed set, the subset transitions lead to exactly the states reachable on the word |
| `SubsetConstruction.TableIsExactIff` | compiler/Homework_2_5_b.java:91-93 | the table is right on every word if and only if no epsilon edge leads out of the unclosed seed |
| `Liveness.IsSame` | compiler/Homework_10_1_b.java:82-91 | true exactly if the last round left every set as it found it |
| `Liveness.DiffSet` | compiler/Homework_10_1_b.java:75-80 | set difference, with the argument unchanged |
| `Liveness.Round` | compiler/Homework_10_1_b.java:55-68 | one in-place pass grows sets, records the previous ones, and changes nothing only if both equations already hold everywhere |
| `Liveness.UpdateKeeps` | compiler/Homework_10_1_b.java:60-67 | one in-place update never shrinks a set and records only live variables |
| `Liveness.LiveInSolution` | compiler/Homework_10_1_b.java:51-73 | a variable with a use reached by a definition-free path is in every solution of the equations |
| `Liveness.SolutionIsLiveness` | compiler/Homework_10_1_b.java:51-73 | a solution holding only live variables is path liveness and lies below every other solution |
| `Liveness.Analyse` | compiler/Homework_10_1_b.java:51-73 | for every flow graph the loop ends in the least solution, and a variable is in `in[n]` exactly if some path from `n` uses it before defining it |
| `RpcClient.StepKeeps` | go-gee-demo/gee-rpc/client.go:234-366 | every step of every goroutine keeps the balance of notifications done, owed and dropped |
| `RpcClient.NotifiedAtMostOnce` | go-gee-demo/gee-rpc/client.go:234-366 | in every interleaving a call is notified at most once, and `done()` never finds its channel full |
| `RpcClient.TerminationReachesEveryCall` | go-gee-demo/gee-rpc/client.go:259-269 | after `terminateCalls`, a call whose send returned was notified exactly once or was dropped by its own cancellation; a waiting call finds its notification |
| `RpcClient.TerminationGetsItsLocks` | go-gee-demo/gee-rpc/client.go:259-263 | in every run `terminateCalls` gets its locks: `sending` is free or its holder's next step brings the release nearer |
| `RpcClient.TerminationProceeds` | go-gee-demo/gee-rpc/client.go:259-269 | while notifying, `terminateCalls` can always notify another pending call or finish |
| `RpcReplies.ReplyReachesItsCall` | go-gee-demo/gee-rpc/client.go:272-301 | in every run, when a header with the number of a pending call is read, its call is notified once after the body, whatever the other goroutines do in between, and its number is never pending again; the receiver reads on, or stops if the body failed |
| `RpcReplies.StrayReplyIsDropped` | go-gee-demo/gee-rpc/client.go:282-288 | a header whose number is not pending changes no call and no pending number; the receiver reads on, or stops if the body failed |
| `RpcReplies.HeaderTakesCall` | go-gee-demo/gee-rpc/client.go:249-256 | taking the call of a header removes exactly that number |
| `RpcReplies.AnswerNotifies` | go-gee-demo/gee-rpc/client.go:289-300 | the call taken is notified for the first time, into its empty channel |
| `RpcReplies.SendAlone` | go-gee-demo/gee-rpc/client.go:234-246 | a call that holds `sending` is pending under a fresh number and written, or, once the client is closing or shut down, notified with no number handed out |
| `RpcReplies.FailedWriteTakesBack` | go-gee-demo/gee-rpc/client.go:325-333 | after a failed write the call is no longer pending, and is notified unless the receiver had taken it |
| `RpcReplies.WaitingCallLeaves` | go-gee-demo/gee-rpc/client.go:357-366 | a waiting call leaves by its notification or its context, and a cancelled one is no longer pending |
| `RpcReplies.ClosedStaysClosed` | go-gee-demo/gee-rpc/client.go:216-269 | a client that is closing or shut down stays so in every run |
| `RpcReplies.ClosingMarks` | go-gee-demo/gee-rpc/client.go:216-269 | `Close` marks the client, a failed header read starts `terminateCalls`, and that marks the client |
| `GeeCache.Cache.Get` | go-gee-demo/gee-cache/geecache/lru/lru.go:33-40 | hits exactly the keys in the list, returns the stored value and moves that entry to the front, the others keeping their order; a miss changes nothing |
| `GeeCache.Cache.Add` | go-gee-demo/gee-cache/geecache/lru/lru.go:43-59 | the byte count ends within the budget, unless that is 0; the list is the longest prefix within the budget of the new entry followed by the old entries of other keys in their order, all of it for budget 0; map, list and byte count agree |
| `GeeCache.AddedSpec` | go-gee-demo/gee-cache/geecache/lru/lru.go:43-59 | the same about the specification that `Add` is proved against, by positions in the old list |
| `GeeCache.Cache.RemoveOldest` | go-gee-demo/gee-cache/geecache/lru/lru.go:68-79 | removes the least recent entry, if any, from list, map and byte count |
| `GeeCache.EvictLeavesLongestFit` | go-gee-demo/gee-cache/geecache/lru/lru.go:56-58 | what eviction leaves weighs at most the budget, every prefix that does is a prefix of it, and a budget of 0 evicts nothing |
| `GeeCache.AddEndsIff` | go-gee-demo/gee-cache/geecache/lru/lru.go:56-58 | the eviction loop ends if and only if the budget is not negative |
| `GeeCache.Group.Get` | go-gee-demo/gee-cache/geecache/geecache.go:68-79 | answers from the cache or the getter, and leaves the recency list as touched, loaded or unchanged |
| `GeeCache.Group.Load` | go-gee-demo/gee-cache/geecache/geecache.go:89-121 | a miss asks the getter; what it returns is found in the cache afterwards exactly if key and value fit the budget alone; an error caches nothing |
| `GeeCache.LoadedIsCached` | go-gee-demo/gee-cache/geecache/geecache.go:115-121 | a loaded value is cached exactly if its entry is within the budget |
| `GeeCache.CachingIsTransparent` | go-gee-demo/gee-cache/geecache/geecache.go:68-121 | after every sequence of Gets, a Get answers what the getter alone would |
| `GeeCache.GetKeepsInclusion` | go-gee-demo/gee-cache/geecache/geecache.go:68-79 | one common Get keeps the smaller cache's recency list a prefix of the larger's |
| `GeeCache.Inclusion` | go-gee-demo/gee-cache/geecache/lru/lru.go:33-79 | for budgets M1 <= M2 (0 unbounded) and every common sequence of Gets, the smaller list is a prefix of the larger |
| `GeeCache.HitsAreMonotone` | go-gee-demo/gee-cache/geecache/lru/lru.go:33-40 | a hit in the smaller cache is a hit in the larger |
| `ConsistentHash.Search` | go-gee-demo/gee-cache/geecache/consistenthash/consistenthash.go:51-55 | binary search finds the first index whose point is at least the hash |
| `ConsistentHash.SortIntsSorts` | go-gee-demo/gee-cache/geecache/consistenthash/consistenthash.go:42-42 | the sorted points are ordered and a permutation of the points |
| `ConsistentHash.Map.Add` | go-gee-demo/gee-cache/geecache/consistenthash/consistenthash.go:34-43 | the ring's points become the old ones and the hash of every replica number followed by its node, each owned by the last added node with a replica there; the keys list exactly the points, sorted |
| `ConsistentHash.NodesAdded` | go-gee-demo/gee-cache/geecache/consistenthash/consistenthash.go:34-43 | the same for one point of the specified ring; points that no added node has keep their owner |
| `ConsistentHash.ItoaIsDecimal` | go-gee-demo/gee-cache/geecache/consistenthash/consistenthash.go:37-37 | replica numbers are hashed in their decimal form without leading zeros |
| `ConsistentHash.Map.Get` | go-gee-demo/gee-cache/geecache/consistenthash/consistenthash.go:46-58 | the one owner of the key's hash: the node at the first ring point at or after it, wrapping around; the empty string on an empty ring |
| `ConsistentHash.FirstAfterGrowth` | go-gee-demo/gee-cache/geecache/consistenthash/consistenthash.go:34-58 | more points move a position's first point only onto a new point |
| `ConsistentHash.OwnerIsUnique` | go-gee-demo/gee-cache/geecache/consistenthash/consistenthash.go:46-58 | a position has one owner |
| `ConsistentHash.OnlyMovesToNewNodes` | go-gee-demo/gee-cache/geecache/consistenthash/consistenthash.go:34-58 | after adding nodes, collisions included, a key's owner is its previous one or one of the added nodes |
| `Wire.Int32RoundTrip` | cpp-object-storage-demo/object.cpp:30-90 | an integer is written as its remainder modulo 2^32, most significant byte first, and a signed 32-bit integer is read back |
| `Wire.RequestLayout` | cpp-object-storage-demo/object.cpp:79-98 | the prefix of a written request is the number of bytes after it; body length, verb, key length, key and body are at their places |
| `Wire.ResponseLayout` | cpp-object-storage-demo/object.cpp:170-181 | the prefix of a written response is the number of bytes after it; body length, status and body are at their places |
| `Wire.RequestRoundTrip` | cpp-object-storage-demo/object.cpp:29-98 | reading a written request gives it back if and only if its key has no NUL byte; otherwise the key is cut there |
| `Wire.ResponseRoundTrip` | cpp-object-storage-demo/object.cpp:132-181 | reading a written response gives it back and leaves what follows |
| `Wire.ResponsesRoundTrip` | cpp-object-storage-demo/object.cpp:132-181 | a client that reads as many responses as were written gets them in order |
| `Framing.Connection.HandleRead` | cpp-object-storage-demo/server.cpp:200-291 | one read of any size advances the connection by exactly those bytes, through length and payload; after a length that is not positive the next read closes the connection |
| `Framing.WrittenRequestsStayOpen` | cpp-object-storage-demo/server.cpp:200-291 | reading written requests never closes the connection |
| `Framing.Connection.Handle` | cpp-object-storage-demo/server.cpp:293-336 | hands out the parsed request, clears the input side and makes the encoded response what is to be written |
| `Framing.Connection.HandleWrite` | cpp-object-storage-demo/server.cpp:338-369 | a partial write sends the next queued bytes and moves on only after the last |
| `Framing.Connection.Reset` | cpp-object-storage-demo/server.cpp:184-194 | returns the connection to its initial state |
| `Framing.StepKeeps` | cpp-object-storage-demo/server.cpp:200-369 | every read, handle, write and reset keeps the account of bytes read, requests handed out and bytes sent |
| `Framing.HandsOutExactlyTheRequests` | cpp-object-storage-demo/server.cpp:200-306 | for every chunking and every would-block, the requests handed out are the written ones, in order, once each, and the bytes sent are the encoded answers |
| `Framing.NeverStuck` | cpp-object-storage-demo/server.cpp:200-369 | until every request is handed out, answered and sent, some event makes progress |
| `ObjectStore.Server.HandlePut` | cpp-object-storage-demo/server.cpp:371-425 | answers OK if and only if the body is not empty, the write is complete and the rename, or for a new key the metadata update, succeeds; where files are apart, after an OK the disk represents the database with the object stored, if and only if the flush succeeded, and after an exception the same one |
| `ObjectStore.Server.Store` | cpp-object-storage-demo/server.cpp:371-425 | files, metadata and reply in the order of the source: open truncates, the write may be refused, rename moves the open file, and closing writes what was buffered |
| `ObjectStore.Server.HandleDelete` | cpp-object-storage-demo/server.cpp:427-461 | answers OK if and only if object and file are there and the metadata update succeeds, and not-found exactly if one of them is missing; where files are apart, after an OK the disk represents the database without the key, after any other reply the same one |
| `ObjectStore.AnswersOkIff` | cpp-object-storage-demo/server.cpp:371-502 | for every request, when each reply is given, in terms of body, failures, metadata and files |
| `ObjectStore.NothingLeftBehind` | cpp-object-storage-demo/server.cpp:371-461 | a DELETE whose updates succeed leaves neither file nor metadata, a replacement that answers OK no temporary file, and no request touches other files or keys |
| `ObjectStore.Server.HandleGet` | cpp-object-storage-demo/server.cpp:463-502 | the object of the represented database, or not-found if it has none |
| `ObjectStore.RequestIsAtomicIff` | cpp-object-storage-demo/server.cpp:371-502 | where different keys have different files and no temporary file is a key's file, a request is atomic if and only if it is not a PUT that answers OK with a failed flush; its reply is right |
| `ObjectStore.ReplaceIsAtomicIff` | cpp-object-storage-demo/server.cpp:399-420 | a fault-free replacement is atomic if and only if it moves no other object's file away and overwrites no other value that shares its file |
| `ObjectStore.RunIsAtomicIff` | cpp-object-storage-demo/server.cpp:371-502 | where files are apart, a run with any failures is atomic at every step if and only if no PUT answers OK with a failed flush |
| `ObjectStore.FlushLosesData` | cpp-object-storage-demo/file.cpp:22-41 | a PUT whose bytes `fclose` fails to write answers OK, and a later GET returns the cut object |
| `ObjectStore.AliasLosesData` | cpp-object-storage-demo/file.h:16-19 | two keys that name one file: storing the second overwrites the first |
| `ObjectStore.SlashAliases` | cpp-object-storage-demo/file.h:16-19 | a key and the key with a slash in front are such a pair |
| `ObjectStore.OwnTmpLosesData` | cpp-object-storage-demo/server.cpp:399-407 | a key whose temporary file is its own loses its object to a failed replacement |
| `ObjectStore.ClashLosesData` | cpp-object-storage-demo/server.cpp:371-425 | storing a key, the key of its temporary file, and the first key again loses the second object |
| `ObjectStore.AtomicIffApart` | cpp-object-storage-demo/server.cpp:371-502 | files are apart if and only if every run over the keys, with any failures, is atomic up to the flushes it loses |
| `ObjectStore.PlainKeysApart` | cpp-object-storage-demo/file.h:16-19 | for any resolver that gives names of one component files of their own, such keys are apart exactly if none is another key plus ".tmp" |
| `ObjectStore.ClashCrashes` | cpp-object-storage-demo/server.cpp:463-475 | after such a clash a GET of the second key seeks on a null stream |
| `ObjectStore.AliasCrashes` | cpp-object-storage-demo/server.cpp:427-475 | deleting one of two keys with one file makes a GET of the other crash |
| `ObjectStore.CrashFreeIff` | cpp-object-storage-demo/server.cpp:371-502 | no run over the keys, with any failures, crashes if and only if no request can take away another key's file |
| `Channel.StepKeeps` | coroutine/channel.h:41-179 | every step of every thread keeps queues, lock and histories consistent |
| `Channel.NoMissedMeeting` | coroutine/channel.h:74-142 | a parked reader never coexists with a buffered value or a parked writer, and writers park only behind a full buffer |
| `Channel.FirstInFirstOut` | coroutine/channel.h:74-142 | without cancellation, values written are values delivered, then the buffer, then the parked writers' values, and the k-th reader receives the k-th value; every reader is served, parked or was woken by closing |
| `ChannelRuns.RunWritesWhatIsPerformed` | coroutine/channel.h:74-142 | in every run the values written are those of the writes whose threads passed the test and took their step, in that order, and the readers numbered are such reads |
| `ChannelRuns.OperationsEndInOrder` | coroutine/channel.h:55-142 | in every run each thread's operations are carried out or refused in the order in which it started them, once each, and at most the last is under way |
| `ChannelRuns.OperationAlone` | coroutine/channel.h:74-142 | an operation that gets the lock is carried out if the channel is open then and refused otherwise |
| `ChannelRuns.LockIsReleased` | coroutine/channel.h:74-179 | whoever holds the lock gives it back within two steps of its own |
| `ChannelRuns.CloseAlone` | coroutine/channel.h:41-49 | closing an open channel resumes every parked writer and reader and leaves nothing parked |
| `ChannelRuns.ClosedRefuses` | coroutine/channel.h:41-66 | on a closed channel no operation starts and a second close does nothing |
| `ChannelRuns.CancelTakesOne` | coroutine/channel.h:144-152 | a cancelled awaiter leaves its list and the others keep their order |
| `Channel.NothingParksAfterCleanUp` | coroutine/channel.h:41-49 | once close's clean-up has run nothing is parked or buffered again, even by operations that had passed the closed test |
| `TreeCodec.Elements` | kafka/src/main/java/com/example/springsourcecode/SpringSourceCodeApplication.java:44-59 | the stack loop emits the preorder with null markers |
| `TreeCodec.Serialize` | kafka/src/main/java/com/example/springsourcecode/SpringSourceCodeApplication.java:44-68 | the preorder joined by commas |
| `TreeCodec.ReadSubtree` | kafka/src/main/java/com/example/springsourcecode/SpringSourceCodeApplication.java:81-95 | the recursion over the shared index reads one subtree and stops right behind it; a malformed number fails |
| `TreeCodec.Deserialize` | kafka/src/main/java/com/example/springsourcecode/SpringSourceCodeApplication.java:71-79 | reads back every tree whose printed form the text is, and fails where a number does not parse |
| `TreeCodec.ParseShow` | kafka/src/main/java/com/example/springsourcecode/SpringSourceCodeApplication.java:49-91 | the decimal form of an integer, with or without a plus sign, is parsed back if it is a 32-bit integer and fails otherwise |
| `TreeCodec.FieldsOfJoin` | kafka/src/main/java/com/example/springsourcecode/SpringSourceCodeApplication.java:60-76 | splitting at commas undoes joining |
| `TreeCodec.HelperReads` | kafka/src/main/java/com/example/springsourcecode/SpringSourceCodeApplication.java:81-95 | a tree printed anywhere among the elements is read back and reading stops right behind it |
| `TreeCodec.HelperInverts` | kafka/src/main/java/com/example/springsourcecode/SpringSourceCodeApplication.java:81-95 | whatever elements are read, printing the tree gives those elements, with numbers in shortest form, and nulls for the missing ones |
| `TreeCodec.HelperFails` | kafka/src/main/java/com/example/springsourcecode/SpringSourceCodeApplication.java:81-95 | reading fails only on an element that is neither `null` nor a 32-bit integer |
| `TreeCodec.SplitIgnoresTrailingComma` | kafka/src/main/java/com/example/springsourcecode/SpringSourceCodeApplication.java:76-76 | a trailing comma changes nothing |
| `TreeCodec.MainPrints` | kafka/src/main/java/com/example/springsourcecode/SpringSourceCodeApplication.java:13-22 | the elements of the tree that `main` prints |
| `TreeCodec.RoundTrip` | kafka/src/main/java/com/example/springsourcecode/SpringSourceCodeApplication.java:44-95 | every binary tree of ints survives printing and reading |
| `AllOne.AllOne.constructor` | kafka/src/main/java/com/example/springsourcecode/SpringSourceCodeApplication.java:120-129 | two linked sentinels, an index with both, and an empty counter map |
| `AllOne.AllOne.AddNewEntry` | kafka/src/main/java/com/example/springsourcecode/SpringSourceCodeApplication.java:205-226 | links an empty bucket next to an adjacent count, keeping the list doubly linked, strictly sorted and indexed |
| `AllOne.AllOne.RemoveOldEntry` | kafka/src/main/java/com/example/springsourcecode/SpringSourceCodeApplication.java:228-238 | unlinks one bucket, keeping the list doubly linked, strictly sorted and indexed |
| `AllOne.AllOne.Inc` | kafka/src/main/java/com/example/springsourcecode/SpringSourceCodeApplication.java:132-158 | the counter map with the key incremented; the list is its partition into level sets if and only if the new count is below Integer.MAX_VALUE, and otherwise the key sits in the tail sentinel |
| `AllOne.AllOne.Dec` | kafka/src/main/java/com/example/springsourcecode/SpringSourceCodeApplication.java:161-185 | the counter map with the key decremented or removed, and a list that is its partition into level sets |
| `AllOne.AllOne.GetMaxKey` | kafka/src/main/java/com/example/springsourcecode/SpringSourceCodeApplication.java:188-194 | a key of the largest count, the empty string if there is none |
| `AllOne.AllOne.GetMinKey` | kafka/src/main/java/com/example/springsourcecode/SpringSourceCodeApplication.java:197-203 | a key of the smallest count, the empty string if there is none |
| `AllOne.MoveKeeps` | kafka/src/main/java/com/example/springsourcecode/SpringSourceCodeApplication.java:132-185 | entering the new bucket and leaving the old one follows any change of one count by one, dropping the bucket that empties |
| `AllOne.BucketsAreForced` | kafka/src/main/java/com/example/springsourcecode/SpringSourceCodeApplication.java:98-130 | the counter map determines the buckets |
| `TrieRouter.ParsePattern` | go-gee-demo/gee-web/gee/router.go:21-34 | the non-empty segments up to and including the first star segment |
| `TrieRouter.FoundDepth` | go-gee-demo/gee-web/gee/trie.go:46-65 | whatever was registered, a found pattern has no more parts than the path has segments |
| `TrieRouter.InsertAt` | go-gee-demo/gee-web/gee/trie.go:31-44 | an insertion that only steps into equal children changes what is stored at the inserted path and nowhere else |
| `TrieRouter.FoundMatches` | go-gee-demo/gee-web/gee/trie.go:46-65 | a found pattern is stored at a path that matches |
| `TrieRouter.NothingMissed` | go-gee-demo/gee-web/gee/trie.go:46-65 | if nothing is found, nothing is stored at any path that matches |
| `TrieRouter.CleanRoutesAreExact` | go-gee-demo/gee-web/gee/trie.go:31-65 | after clean insertions a search returns the pattern registered last for a matching path, and finds nothing if and only if no matching path is registered |
| `TrieRouter.FoundIffRegistered` | go-gee-demo/gee-web/gee/router.go:36-74 | after clean insertions without the empty pattern, a route is found if and only if a registered pattern matches the path |
| `TrieComplete.RegisteredIsStored` | go-gee-demo/gee-web/gee/trie.go:31-44 | every registered pattern with segments ends at a node that keeps a pattern, whatever is registered later |
| `TrieComplete.UncapturedIsFound` | go-gee-demo/gee-web/gee/trie.go:46-65 | a pattern none of whose stars was captured by a parameter is found on every path it matches |
| `TrieComplete.AbsorbsFinds` | go-gee-demo/gee-web/gee/trie.go:46-65 | where other wild nodes accept what a captured star accepts, all its paths are found |
| `TrieComplete.SomePathMissed` | go-gee-demo/gee-web/gee/trie.go:46-65 | where they do not, some path that the star matches is not found |
| `TrieComplete.CompleteIff` | go-gee-demo/gee-web/gee/trie.go:12-65 | for any registrations, the empty pattern included, nil for a path means that no registered pattern matches it if and only if the root was not cleared and what each captured star accepts is accepted elsewhere |
| `TrieComplete.CapturedStarIsLost` | go-gee-demo/gee-web/gee/trie.go:12-44 | registering `/:a` and then `/*b` makes the path `/x/y` find nothing, for all such names |
| `TrieComplete.EmptyPatternClearsRoot` | go-gee-demo/gee-web/gee/trie.go:31-35 | registering `/` and then the empty pattern makes the path `/` find nothing |
| `TrieComplete.EmptyPatternIsNotFound` | go-gee-demo/gee-web/gee/trie.go:31-50 | a route registered as the empty pattern is not found |
| `TrieSound.GenericFinds` | go-gee-demo/gee-web/gee/trie.go:46-65 | the most general path to a reachable node leads the search to exactly that node |
| `TrieSound.SoundIffCovered` | go-gee-demo/gee-web/gee/trie.go:12-65 | for any registrations, what is found for a path always matches it if and only if the pattern at each reachable node covers the path leading there |
| `TrieSound.FoundIsBest` | go-gee-demo/gee-web/gee/trie.go:46-65 | the found pattern is stored at a matching path that, where it first differs from any other stored matching path, has the literal segment |
| `TrieSound.FoundIffBest` | go-gee-demo/gee-web/gee/trie.go:46-65 | a search finds exactly the pattern at the preferred matching path |
| `TriePaths.SentAsIs` | go-gee-demo/gee-web/gee/router.go:21-34 | segments without slashes and stars come back when they are joined into a path and parsed |
| `TriePaths.SplitOfJoin` | go-gee-demo/gee-web/gee/router.go:66-66 | splitting what `strings.Join` made of segments without slashes gives exactly these segments, empty ones included |
| `TriePaths.JoinOfSplit` | go-gee-demo/gee-web/gee/router.go:22-22 | joining the items of any split string gives the string back |
| `TriePaths.KeptIgnores` | go-gee-demo/gee-web/gee/router.go:21-34 | empty items do not matter, and nothing after the first star does |
| `TrieSound.CaptureBreaksMatching` | go-gee-demo/gee-web/gee/trie.go:12-44 | registering `/:a` and then `/b` makes the path `/c` find `/b`, for all such names |
| `TrieNodes.Node.MatchFirstChild` | go-gee-demo/gee-web/gee/trie.go:12-19 | the first child that equals the segment or is wild |
| `TrieNodes.Node.Add` | go-gee-demo/gee-web/gee/trie.go:31-44 | in-place insertion builds the specified tree and shares no node |
| `TrieNodes.Node.Find` | go-gee-demo/gee-web/gee/trie.go:46-65 | the backtracking search returns the node of the specified result |
| `TrieNodes.Router.AddRoute` | go-gee-demo/gee-web/gee/router.go:36-46 | the trie is the one that all registrations so far build |
| `TrieNodes.Router.GetRoute` | go-gee-demo/gee-web/gee/router.go:48-74 | never reads past the segments; the result is what the search of the registered patterns gives, with its parameters bound, a star's to a value that splits into the segments left; it matches, and nil means that nothing does, under the exact conditions and for clean insertions |
| `TrieParams.Bind` | go-gee-demo/gee-web/gee/router.go:60-69 | the bound names are those of the pattern, each has the segment of its last part, a star's value splits at slashes into exactly the segments that are left, and a matching pattern filled with the values is the path |
| `TrieParams.FilledIsPath` | go-gee-demo/gee-web/gee/router.go:60-69 | for distinct names, substituting the parameters into a matching pattern rebuilds the path |
| `TrieParams.BindingIsUnique` | go-gee-demo/gee-web/gee/router.go:60-69 | the parameters are determined |
| `ThreadPool.New` | rust-playground/http-server/src/thread_pool.rs:29-46 | refuses an empty pool, else starts all workers idle with an empty queue |
| `ThreadPool.StepKeeps` | rust-playground/http-server/src/thread_pool.rs:48-95 | every step of owner and workers keeps the account of queued, running and finished jobs and of terminate messages |
| `ThreadPool.AtMostOnceInOrder` | rust-playground/http-server/src/thread_pool.rs:48-95 | in every schedule jobs start in submission order and none runs twice |
| `ThreadPool.ExecuteSubmits` | rust-playground/http-server/src/thread_pool.rs:48-52 | in every run the jobs submitted are the calls of `execute` |
| `ThreadPool.OpenNeverStuck` | rust-playground/http-server/src/thread_pool.rs:80-95 | while the pool is open and some job has not finished, a worker can move |
| `ThreadPool.JobsComplete` | rust-playground/http-server/src/thread_pool.rs:80-95 | the workers of an open pool come to rest on every schedule of theirs, and then every submitted job has finished exactly once |
| `ThreadPool.DropLeavesNothing` | rust-playground/http-server/src/thread_pool.rs:55-72 | when `drop` returns, every submitted job ran exactly once and every worker took exactly one terminate message |
| `ThreadPool.SendsAreReceived` | rust-playground/http-server/src/thread_pool.rs:48-60 | whenever `execute` or `drop` sends, a worker is alive that holds the receiver, so no send fails |
| `ThreadPool.NoEmptyQueueAfterSends` | rust-playground/http-server/src/thread_pool.rs:55-72 | once all terminate messages are sent, a worker that has not stopped never faces an empty queue |
| `ThreadPool.DropNeverStuck` | rust-playground/http-server/src/thread_pool.rs:55-72 | until `drop` has joined every worker, it or a worker can move |
| `ThreadPool.DropCompletes` | rust-playground/http-server/src/thread_pool.rs:55-95 | from any state of an open pool, `drop` is bounded on every schedule, and when nothing can move every worker is joined and every submitted job ran exactly once |

## Left out

- `SPMCQueue.h`: weak memory orders, shared-memory setup and cross-process pointers; one address space under sequential consistency. Segment allocation never fails.
- `y.tab.c`: `yylex`, floating point and `pow`, stack growth beyond the initial depth, and error messages.
- RpcClient.StepKeeps: sequence numbers do not wrap at 64 bits, and a `Done` channel supplied by the caller of `Go` is not modelled; only the one made by `Client.Call`.
- RpcClient.TerminationReachesEveryCall: network reads and writes are events that may succeed or fail at any time; encoding, the options handshake and heartbeat are not modelled.
- GeeCache.Cache.Add: budgets are not negative, since the call does not return for others (`AddEndsIff`); byte counts do not overflow, and there is no eviction callback.
- GeeCache.Group.Get: no peers and no duplicate-call suppression; the getter is a function.
- ConsistentHash.Map.Add: the hash is an uninterpreted function, not CRC-32.
- Framing.Connection.HandleRead: sockets, epoll and mutexes are not modelled, nor the buffer that `Request::write` allocates without the key's length.
- ObjectStore.RequestIsAtomicIff: opens and metadata reads succeed; only writes, flushes, renames, removes and metadata writes fail. How the file system resolves a key is an uninterpreted function.
- Channel.StepKeeps: capacities are not negative; executors, timers and coroutine frames are not modelled.
- TreeCodec.Serialize: tree nodes are values, so `helper` builds a tree instead of filling node fields; decimal digits are ASCII only.
- AllOne.AllOne.Dec: starts from a valid list, so not from one whose tail sentinel holds a key; there the source dereferences null.
- AllOne.AllOne.GetMaxKey: any key of the bucket may be returned; the hash set's iteration order is not modelled.
- TrieNodes.Router.AddRoute: one HTTP method's entry; the map from methods to tries and the handler table are not modelled.
- ThreadPool.StepKeeps: jobs neither panic nor run forever, so no lock is poisoned and no receive fails.
- The queue in opencode-vibe-demo and the RPC client in go-web-user-demo: copies of modelled files.
- `NumArray` and `Solution1` in `SpringSourceCodeApplication.java`, `os/p1.c`, the coroutine timer, executor and task promise, `compiler/lab1`: not modelled.
- ORM, reflection-based services, HTTP handlers, generated protocol code, database, Kafka, Flink, Spring, plotting and UI code: library plumbing.
