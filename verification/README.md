# gestaltdb verification

A Dafny model of the self-contained algorithms around the gestaltdb graph store, with proofs about all of
their inputs, runs or interleavings. `dafny verify dfyconfig.toml` checks everything.

| module | models | main result |
|---|---|---|
| `BoundedBfs` | the queue search of `benchmarks/common/workloads.py` | the answer is min(nodes within the depth - 1, limit) |
| `LevelBfs` | the level-synchronous searches of `benchmarks/external.py` | both give one closed form, and how that relates to the queue form |
| `Reservoir` | the reservoirs of `benchmarks/sampler.py` and `benchmarks/common/timing.py` | every sample is kept by equally many draw sequences |
| `LockMachine`, `LockSteps`, `LockRuns`, `LockProgress`, `LockInterrupts`, `FileLock` | the reentrant file lock and weak registry of `src/gestaltdb/concurrency.py` | mutual exclusion in every interleaving of small steps, also with exceptions at any point, what a failed call restores, what can always go on or be collected, and the lock object's calls as runs of it |
| `WalkCache` | the bounded cache of `benchmarks/walk_cache.py` | invisible to caller and generator; budgets; retained keys are a recency suffix |
| `Hierarchy` | `TypeHierarchy` of `src/gestaltdb/hierarchy.py` | construction succeeds exactly on clean acyclic entries and keeps what they give; closures, expansion, idempotence |
| `Roadmap` | the dependency check of `planning/reasoning-engine/check_roadmap.py` | completes exactly on well-formed plans, with an order as witness |
| `Datalog`, `OntologyWorkloads` | the analytic closures of `benchmarks/ontology.py` | each closure is the least model and has the size of its formula |
| `FrontierOracle` | the oracle of `benchmarks/reasoning_frontier_pipeline.py` | the oracle is the least model of the reach program |
| `Compaction` | the overwrite pass of `benchmarks/compaction.py` | the permuted order is a bijection exactly when the key count is no multiple of the stride |
| `SpanEdits` | the rewriting loop of `docs/_ext/database_examples.py` | descending edits are simultaneous substitution |
| `InferenceExport` | the audit export of `src/gestaltdb/inference.py` | canonical, closed, complete and within budget |
| `IndexState`, `IndexMeaning`, `IndexService` | index creation, deferred loading and rebuilds of `src/gestaltdb/` | what every run of operations with failures keeps, and when a rebuild is exact |
| `CountCache` | the in-place update of the parent count cache of `src/gestaltdb/_graph/adjacency.py` | exactly when a cache that agreed with the store still does |

`Common`, `Graphs` and `Sorting` hold shared vocabulary: results, walks and reachability, and stable sorting
with Python's string order.

Code that updates state step by step is a method or class proved against a function of its inputs or of its old
state; the properties are then lemmas about that function, about runs of it, or about reachable states.
Random draws, system call outcomes, storage faults and the answers of query engines are parameters.

## What was found

- A closure may list a name twice (`src/gestaltdb/hierarchy.py:128-129` appends a direct child unchecked).
  `Hierarchy.ClosureRepeatsExactlyWhen` gives the exact condition; `expand` never repeats.
- The level-synchronous searches and the queue search count differently when the start lies on a cycle no longer
  than the depth (`LevelBfs.LevelVersusQueue`): only the queue form marks the start at the outset.
- The permuted key order misses keys exactly when the key count is a multiple of 1000003, which is prime
  (`Compaction.PermutedIffNoMultiple`, `Compaction.CommonFactorCollides`).
- Index rebuilds only add entries. A deferred load that replaces a record leaves the old record's entries, and the
  rebuild then clears the stale mark over them. A family equals its full scan after the rebuild exactly when it held
  no foreign entry before (`IndexState.DeferredRebuildIsFullScan`); `IndexState.LoadStaysCleanIff` says exactly which
  loads are safe, and `IndexState.DeferredReplacementLeavesEntry` shows one that is not. An append-only load that does
  replace a record has the same effect.
- On a store without transactions the count cache follows the rows written, the store the keys they have: out records
  are keyed by source, type and edge, the target is the value. An edge loaded again, or listed twice in one batch, is
  counted twice (`CountCache.ReloadMiscounts`, `CountCache.RepetitionMiscounts`), and an absent count is taken for zero.
  `CountCache.AdditionAgreesIff` and `CountCache.RemovalAgreesIff` give the exact conditions; on a transactional session
  the cache always agrees.
- An edge loaded again with another target leaves its old reverse record (`IndexState.MovedEdgeLeavesRecord`).
- The handlers of `__enter__` do not undo an exception that strikes once a first entry has stored its handle or once
  the depth is counted; the lock is then left with the handle or the depth (`LockInterrupts.EventRunRestoresIff`,
  `LockInterrupts.SomeExceptionStrands`). One outside the inner try, between the open and the inner try or before the
  handle is stored, restores the lock's fields but leaves the description, and its flock, to the garbage collector
  (`LockInterrupts.OuterOnlyLeaks`). Exclusion survives all of them.

## Model

| member | source | states |
|---|---|---|
| `BoundedBfs.GestaltdbBfs` | benchmarks/common/workloads.py:25-47 | for every stored adjacency, start, depth (or none, or negative) and limit, the queue loop ends and returns the number of nodes at shortest distance at most depth, less the start, clipped to the limit, in the graph with an edge v to w exactly when some given type has w among the records of v |
| `BoundedBfs.TypedGraph.DigraphIsAdjacency` | benchmarks/common/workloads.py:42-46 | the graph searched has an edge for every stored record of the given types, all records of a list included, and no other |
| `BoundedBfs.TypedGraph.RowsInOrder` | benchmarks/common/workloads.py:42-46 | neighbours come type by type in the order given and in record order within a type |
| `BoundedBfs.BallIsAll` | benchmarks/common/workloads.py:39-46 | the counted set is every node within the depth, with no restriction to the nodes of the graph |
| `BoundedBfs.WalkIsPopped` | benchmarks/common/workloads.py:34-46 | with the queue empty, the end of any walk of allowed length has been marked at that depth or sooner |
| `BoundedBfs.WalkIsPoppedOrWaits` | benchmarks/common/workloads.py:34-46 | at any time the end of a walk of k allowed steps has been marked at depth k or sooner, or an entry that shallow is still queued |
| `BoundedBfs.PoppedIsShortest` | benchmarks/common/workloads.py:35-41 | at any time, also when the limit has stopped the search, the depth at which a node was first popped is its shortest distance |
| `BoundedBfs.InvExpand` | benchmarks/common/workloads.py:39-46 | popping an unmarked head and queueing its unmarked neighbours, duplicates included, keeps soundness, FIFO depth order and completeness |
| `BoundedBfs.InvSkip` | benchmarks/common/workloads.py:35-38 | so does dropping a head that was marked already |
| `BoundedBfs.QueueNeighbors` | benchmarks/common/workloads.py:42-46 | the two inner loops append exactly one entry per record whose neighbour is unmarked, in record order |
| `BoundedBfs.PopEntry` | benchmarks/common/workloads.py:35-46 | one turn of the loop keeps the invariant and shrinks (unmarked nodes, queue length) |
| `LevelBfs.TypedBfsCypher` | benchmarks/external.py:564-579 | the per-node search returns the size of the set of nodes reached by walks of 1 to c steps over the stored adjacency, c the first level that meets the limit, or the depth |
| `LevelBfs.TypedBfsCypherBatched` | benchmarks/external.py:582-592 | the batched search returns the same number for every stored adjacency, depth and limit |
| `LevelBfs.StopLevelIsFirst` | benchmarks/external.py:568 | the level at which they stop meets the limit or the depth, and no earlier one meets the limit |
| `LevelBfs.NextLevel` | benchmarks/external.py:569-576 | one level adds exactly the successors of the frontier |
| `LevelBfs.ExhaustedStays` | benchmarks/external.py:568-578 | once a frontier is empty no later level adds anything |
| `LevelBfs.QueueMarksStartToo` | benchmarks/external.py:859-877 | the set marked by the queue form is the level-synchronous set and the start |
| `LevelBfs.LevelVersusQueue` | benchmarks/external.py:564-592 | unless the level set exceeds the limit, the two forms differ by one exactly when the start lies on a cycle no longer than the depth |
| `LevelBfs.BothReachLimit` | benchmarks/external.py:564-592 | when it does exceed the limit, the queue form answers the limit and the level forms at least that much |
| `Reservoir.SampleNeighbors` | benchmarks/sampler.py:85-100 | the sample is the stream read at the reservoir's positions, or the whole stream when it fits |
| `Reservoir.PositionsMeaning` | benchmarks/sampler.py:90-99 | the first k elements fill the reservoir in order; of each later one, a draw r below k puts it in place r and any other draw changes nothing |
| `Reservoir.PositionsDistinct` | benchmarks/sampler.py:90-99 | the reservoir holds min(n, k) different positions of the stream |
| `Reservoir.DrawsAreValid` | benchmarks/sampler.py:97 | the counted draw sequences are exactly those the generator can produce |
| `Reservoir.DrawsCard` | benchmarks/sampler.py:92-97 | there are n!/k! of them |
| `Reservoir.InclusionCount` | benchmarks/sampler.py:92-99 | any set of j positions is kept whole in exactly k(k-1)...(k-j+1) out of n(n-1)...(n-j+1) of the draw sequences |
| `Reservoir.EachPositionEquallyOften` | benchmarks/sampler.py:92-99 | every position is kept in exactly k/n of them |
| `Reservoir.EachPairEquallyOften` | benchmarks/sampler.py:92-99 | every pair is kept in exactly k(k-1)/(n(n-1)) of them |
| `Reservoir.EverySampleEquallyOften` | benchmarks/sampler.py:92-99 | every k-element set is the final sample equally often |
| `Reservoir.ReservoirCount` | benchmarks/common/timing.py:29-41 | the streaming form reports min(n, capacity) |
| `LockRuns.StepKeeps` | src/gestaltdb/concurrency.py:29-77 | every step of every thread (acquire, open, flock, store, count, unlock, close, release, failing calls, registry lookups, garbage collection) keeps the full invariant |
| `LockMachine.EnteringRemembers` | src/gestaltdb/concurrency.py:30-56 | whatever step anyone takes, an entering thread's view of the lock it found is kept until its own call ends |
| `LockRuns.RunKeeps` | src/gestaltdb/concurrency.py:29-110 | the invariant holds in every state of every interleaving |
| `LockMachine.MutualExclusion` | src/gestaltdb/concurrency.py:17-18 | at most one thread is inside the region of a path, whatever managers and processes are used |
| `LockRuns.RunExcludes` | src/gestaltdb/concurrency.py:29-77 | the same over whole runs from the initial state |
| `LockRuns.SomeRunEnters` | src/gestaltdb/concurrency.py:29-53 | some run does put a thread inside a region: the claims about runs are about something |
| `LockMachine.SettledBetweenCalls` | src/gestaltdb/concurrency.py:26-27 | between calls depth is the RLock count, the handle is set exactly when depth is positive, and no descriptor of an idle lock is open |
| `LockRuns.CallsAreSafe` | src/gestaltdb/concurrency.py:58-75 | a call always holds its RLock, and leaving always finds a positive depth and a handle to close |
| `LockMachine.FailedEnterRestores` | src/gestaltdb/concurrency.py:48-56 | an enter whose open or flock fails, or that is struck inside the inner try or early on a reentry, leaves the lock as the call found it |
| `LockRuns.RunFailedEnterRestores` | src/gestaltdb/concurrency.py:29-56 | over a run, whatever other threads do in between, an enter that ends by raising hands back the lock it was called on, and its thread is inside as many regions as before |
| `LockMachine.InterruptRestoresIff` | src/gestaltdb/concurrency.py:51-56 | an exception after the handle is stored or the depth is counted leaves the lock as found exactly on a reentry not yet counted; a first entry is left unowned with its handle and flock, so nobody can lock the path |
| `LockMachine.InterruptIsARun` | src/gestaltdb/concurrency.py:51-56 | in its one harmless case the handler does what the steps of the machine do |
| `LockInterrupts.EventKeeps` | src/gestaltdb/concurrency.py:29-77 | with an asynchronous exception at any point of any call, seen by the inner handler, the outer one only, or none, and with file objects freed later, every event keeps what exclusion needs |
| `LockInterrupts.ExceptionsStrike` | src/gestaltdb/concurrency.py:29-77 | at each point of a call, exactly which exceptions can strike and so which handlers see them |
| `LockInterrupts.AbandonedCall` | src/gestaltdb/concurrency.py:29-32 | an exception no handler sees leaves every field as it was, and the lock stays owned, so that nobody else can enter it |
| `LockInterrupts.EventRunExcludes` | src/gestaltdb/concurrency.py:17-18 | so over any run with any such exceptions two occupied regions of one path have one thread and one lock |
| `LockInterrupts.EventRunRestoresIff` | src/gestaltdb/concurrency.py:29-56 | over any such run an enter that ends by raising hands back the lock it was called on exactly when no exception struck it after its own handle was stored or its depth counted |
| `LockInterrupts.RunIsEventRun` | src/gestaltdb/concurrency.py:29-77 | the runs without exceptions are among these |
| `LockInterrupts.OuterOnlyLeaks` | src/gestaltdb/concurrency.py:33-35 | an exception outside the inner try restores the lock but leaves the description open, and flocked if it was |
| `LockInterrupts.FreedIsClosed` | src/gestaltdb/concurrency.py:48-56 | until its file object is freed; then all is as if the inner handler had closed it |
| `LockInterrupts.SomeExceptionStrands` | src/gestaltdb/concurrency.py:51-56 | some run ends with every call over and the path flocked by an idle lock at depth zero |
| `LockInterrupts.HandleBlocksPath` | src/gestaltdb/concurrency.py:36-39 | while a lock keeps a handle, stranded or not, nobody can flock its path |
| `LockInterrupts.InterruptedByEvent` | src/gestaltdb/concurrency.py:51-56 | the outcomes of `InterruptRestoresIff` are those of the events |
| `LockMachine.OneLivePerPath` | src/gestaltdb/concurrency.py:96-104 | a manager never has two live locks for one canonical path |
| `LockMachine.HoldersShare` | src/gestaltdb/concurrency.py:99-104 | while a lock lives, asking its manager for its path finds it and cannot make another |
| `LockMachine.RegistryBounded` | src/gestaltdb/concurrency.py:81-82 | the registry is exactly as large as the set of live locks; `LockProgress` says when those go |
| `LockProgress.UnreferencedIsCollectable` | src/gestaltdb/concurrency.py:93-94 | in every reachable state a lock nobody refers to can be collected, whatever other locks are referred to; its entry goes and every other one stays |
| `LockProgress.CollectionsEmptyRegistry` | src/gestaltdb/concurrency.py:81-110 | from every such state collections alone reach one in which the registry has exactly as many entries as there are locks referred to |
| `LockProgress.AskingSucceeds` | src/gestaltdb/concurrency.py:96-104 | an idle thread that asks for any path gets a lock of that manager and path, unlocked if it is new, and disturbs no other |
| `LockProgress.EntryBlockedIff` | src/gestaltdb/concurrency.py:29-30 | entering a lock waits exactly while another thread is inside a region of it or in a call on it: the owner reenters at once |
| `LockProgress.CallGoesOn` | src/gestaltdb/concurrency.py:29-77 | a thread in a call always has a next step that does not fail, unless it waits for a flock that is held |
| `LockProgress.FlockHolderIsActive` | src/gestaltdb/concurrency.py:36-39 | and then some thread is inside a region of that path or in a call on a lock of it |
| `LockProgress.UnlockFrees` | src/gestaltdb/concurrency.py:62-68 | unlocking gives up the flock of exactly that path |
| `LockProgress.CloseFrees` | src/gestaltdb/concurrency.py:74-75 | closing leaves no description of the lock and no flock through it, also when unlocking failed |
| `LockSteps.CollectKeeps` | src/gestaltdb/concurrency.py:3-5 | garbage collection never drops a lock that is owned, open or locked |
| `FileLock.ReentrantFileLock.Enter` | src/gestaltdb/concurrency.py:29-56 | the new lock, the open files and whether the call returned, for each way its system calls go |
| `FileLock.ReentrantFileLock.Exit` | src/gestaltdb/concurrency.py:58-77 | the new lock and files; closing gives the flock up even when unlocking raised |
| `FileLock.EnterIsARun` | src/gestaltdb/concurrency.py:29-56 | that result is what the machine reaches when the thread takes its steps undisturbed |
| `FileLock.ExitIsARun` | src/gestaltdb/concurrency.py:58-77 | likewise for leaving |
| `FileLock.ExitUndoesEnter` | src/gestaltdb/concurrency.py:29-77 | leaving after entering restores lock, descriptors and flocks |
| `FileLock.FailedEnterIsInvisible` | src/gestaltdb/concurrency.py:48-56 | a failed enter changes none of them |
| `WalkCache.WalkTransitionCache.Choose` | benchmarks/walk_cache.py:45-86 | the position returned is the one the plan of candidates and weights gives, after one draw if it has several, and has positive weight; the call raises exactly on unusable input; a hit moves its key to the end, a miss that fits is added and evicts from the front, one that does not changes nothing |
| `WalkCache.PlanMeaning` | benchmarks/walk_cache.py:60-71 | a key has a plan exactly when there are candidates and no weights, or as many weights as candidates, none negative and one positive; it lists exactly the positions of positive weight, ascending, each with its weight over the total of all weights |
| `WalkCache.PlanIsUnique` | benchmarks/walk_cache.py:60-71 | no other plan fits the key |
| `WalkCache.CallRemembers` | benchmarks/walk_cache.py:47-82 | what is retained after a call, which counter moves and which entries go, for a hit, a fitting miss, a bypass, a failure and another snapshot |
| `WalkCache.AnswerPosition` | benchmarks/walk_cache.py:83-86 | an answer is a position of the candidates with positive weight, and there is none exactly on unusable input |
| `WalkCache.WalkTransitionCache.MakeRoom` | benchmarks/walk_cache.py:75-78 | the eviction loop ends and does what the specification evicts |
| `WalkCache.WalkTransitionCache.Clear` | benchmarks/walk_cache.py:34-38 | entries and binding go, counters stay |
| `WalkCache.ProbabilitiesProportional` | benchmarks/walk_cache.py:66-69 | the probabilities are the positive weights in proportion |
| `WalkCache.ProbabilitiesSumToOne` | benchmarks/walk_cache.py:66-69 | and sum to one |
| `WalkCache.FetchIsBuild` | benchmarks/walk_cache.py:53-81 | the plan used by a call depends on the key alone |
| `WalkCache.CallIsInvisible` | benchmarks/walk_cache.py:45-86 | one call answers, raises and draws as if nothing were cached |
| `WalkCache.CacheIsInvisible` | benchmarks/walk_cache.py:45-86 | over any run of calls, rebindings and clears a cache gives the positions, errors and generator state of one with no entries |
| `WalkCache.RunIsInvisible` | benchmarks/walk_cache.py:45-86 | the same for caches of any two capacities and contents |
| `WalkCache.CallKeeps` | benchmarks/walk_cache.py:47-82 | the byte total is the sum of the retained sizes, both budgets hold, and each call is one hit or one miss |
| `WalkCache.RunKeepsCapacity` | benchmarks/walk_cache.py:40-43 | over a run hits and misses add up to the calls |
| `WalkCache.EvictedFacts` | benchmarks/walk_cache.py:75-78 | eviction ends, drops only the least recently used entries, counts them, and stops with room |
| `WalkCache.EvictionIsMinimal` | benchmarks/walk_cache.py:75-78 | and it drops none needlessly: keeping one more would not have left room |
| `WalkCache.RunRetainsRecent` | benchmarks/walk_cache.py:53-80 | at the end of any run the retained keys are a suffix of the recency order of the uses since the last clear |
| `WalkCache.RecencyByLastUse` | benchmarks/walk_cache.py:56 | that recency order is the order of last uses |
| `WalkCache.EvictedWasOlder` | benchmarks/walk_cache.py:75-78 | a key no longer retained was last used before every retained key |
| `WalkCache.RunEvictedWasOlder` | benchmarks/walk_cache.py:53-80 | so at the end of any run of a new cache every evicted key was last used before every retained key |
| `Hierarchy.Construct` | src/gestaltdb/hierarchy.py:41-71 | over the entries given: construction succeeds exactly when no name is empty, no child is its own parent and the child-to-parent relation is acyclic; otherwise the error is that of the first refused entry, or a cycle when none is; on success the entries are kept in order, each with its given parents once each in first-seen order, and closures are reachability in the given relation |
| `Hierarchy.GivenMeaning` | src/gestaltdb/hierarchy.py:48-67 | the checks pass exactly on entries without empty names or own parents, and keep every child, every parent and the relation |
| `Hierarchy.DownIsParents` | src/gestaltdb/hierarchy.py:123-126 | a name has as children exactly the entries that list it among their parents |
| `Hierarchy.FoundInOrder` | src/gestaltdb/hierarchy.py:123-126 | listed in the order of the entries |
| `Hierarchy.DescendMeaning` | src/gestaltdb/hierarchy.py:119-133 | the trail recursion fails exactly when some walk down returns to the trail or to itself, and otherwise lists exactly the proper descendants |
| `Hierarchy.NoLoopsMeansAcyclic` | src/gestaltdb/hierarchy.py:120-122 | no name fails exactly when the relation is acyclic |
| `Hierarchy.ComputeDescendants` | src/gestaltdb/hierarchy.py:119-133 | the two loops compute the specified list, in order and with its repetitions |
| `Hierarchy.DescendantsInOrder` | src/gestaltdb/hierarchy.py:127-133 | first-seen, the descendants of a name are the expansion of its children in entry order |
| `Hierarchy.AllNames` | src/gestaltdb/hierarchy.py:111-117 | every child and parent once |
| `Hierarchy.Hierarchy.ClosureIsReach` | src/gestaltdb/hierarchy.py:140-143 | as a set, the closure of x is what x reaches by zero or more steps down |
| `Hierarchy.Hierarchy.ClosureIsPartialOrder` | src/gestaltdb/hierarchy.py:140-143 | closure membership is reflexive, transitive and antisymmetric |
| `Hierarchy.Hierarchy.ExpandedFacts` | src/gestaltdb/hierarchy.py:145-159 | expand is free of repetitions and is the union of the closures |
| `Hierarchy.Hierarchy.ExpandedIsFirstSeen` | src/gestaltdb/hierarchy.py:153-159 | it is the first-seen listing of the closures, one after the other |
| `Hierarchy.FirstSeenInOrder` | src/gestaltdb/hierarchy.py:156-158 | a first-seen listing has the same names once each, in the order of their first occurrence |
| `Hierarchy.Hierarchy.ExpandAgain` | src/gestaltdb/hierarchy.py:145-159 | expanding an expansion gives the same sequence |
| `Hierarchy.Expand` | src/gestaltdb/hierarchy.py:145-159 | the method computes that sequence, and fails exactly when a query name is empty |
| `Hierarchy.ClosureRepeatsExactlyWhen` | src/gestaltdb/hierarchy.py:127-132 | a closure is free of repetitions exactly when no child of the name lies below an earlier child of it |
| `Hierarchy.GatherRepeats` | src/gestaltdb/hierarchy.py:126-132 | gathering repeats a name exactly when a child was listed before or an earlier sibling reaches it |
| `Hierarchy.ClosureMayRepeat` | src/gestaltdb/hierarchy.py:128-129 | with B below A and C below both the closure of A repeats, its expansion does not |
| `Roadmap.CheckDependencies` | planning/reasoning-engine/check_roadmap.py:79-96 | the check completes exactly when every dependency exists, no list repeats and the relation is acyclic; it then has an order of all items with dependencies first, and a failure names a real violation |
| `Roadmap.DependencyCheck.Visit` | planning/reasoning-engine/check_roadmap.py:82-93 | a visit that returns has restored the active set and visited its key; the recursion ends on any finite map |
| `Roadmap.OrderMeansWellFormed` | planning/reasoning-engine/check_roadmap.py:82-93 | a dependencies-first order of all items exists only for well-formed items |
| `Roadmap.WalksGoBack` | planning/reasoning-engine/check_roadmap.py:89-93 | in such an order every dependency walk goes strictly backwards |
| `Roadmap.DependencyCheck.Finish` | planning/reasoning-engine/check_roadmap.py:92-93 | leaving a key moves it from the active to the visited set and extends the order |
| `OntologyWorkloads.MakeWorkload` | benchmarks/ontology.py:56-109 | refusals in order; the rows of each workload position by position and its axioms; what the axioms ask of a set of facts; the closing assertion as a postcondition; and that the closure is the least set that holds the rows and respects the axioms |
| `OntologyWorkloads.RowsMeaning` | benchmarks/ontology.py:79-105 | the row at each position: typed nodes, heap parents, each duplicate eight times in a row, and the chain |
| `OntologyWorkloads.AxiomsMeaning` | benchmarks/ontology.py:78-104 | the axioms of each workload |
| `OntologyWorkloads.ModelMeaning` | benchmarks/ontology.py:80-106 | a model of the compiled rules is exactly a set of facts that holds the rows and respects every axiom |
| `OntologyWorkloads.ExpectedIsLeastModel` | benchmarks/ontology.py:70-106 | for every size the closure is the least set that holds the rows and obeys the rules |
| `OntologyWorkloads.ClosureCheckDecides` | benchmarks/ontology.py:412-414 | the comparison with a decoded closure succeeds exactly when that closure is the least model |
| `OntologyWorkloads.DerivedIsForced` | benchmarks/ontology.py:80-106 | no fact of the closure can be left out |
| `OntologyWorkloads.ExpectedCard` | benchmarks/ontology.py:61-66 | rows and closure have the sizes of the formulas |
| `OntologyWorkloads.AboveFacts` | benchmarks/ontology.py:97-100 | a node of the heap-shaped tree has bit_length(i + 1) - 1 proper ancestors |
| `OntologyWorkloads.AboveIsAncestors` | benchmarks/ontology.py:96-100 | its ancestors are exactly the nodes a whose number a + 1 is i + 1 shifted right by one bit or more |
| `OntologyWorkloads.BitLengthIsLogarithm` | benchmarks/ontology.py:63 | bit_length bounds its argument by powers of two |
| `OntologyWorkloads.AddAncestors` | benchmarks/ontology.py:96-100 | the two loops add exactly the ancestor facts |
| `FrontierOracle.AnalyticalClosure` | benchmarks/reasoning_frontier_pipeline.py:74-88 | for every row count and shape the oracle is the least model of the two-rule program over the triples, given one by one, and its answers at entity 0 are exactly entities 1 to min(rows, 128 when dense, else 8) |
| `FrontierOracle.TriplesMeaning` | benchmarks/reasoning_frontier_pipeline.py:58-67 | the triple at each position: a chain of 128 or 8 edges, then chains of three or single edges |
| `FrontierOracle.ProgramMeaning` | benchmarks/reasoning_frontier_pipeline.py:207-209 | a model of the program holds the triples, reaches along every edge and extends what it reaches by every edge |
| `FrontierOracle.ClosureIsLeastModel` | benchmarks/reasoning_frontier_pipeline.py:207-209 | the facts along one path, and no others, are derived |
| `FrontierOracle.Joins` | benchmarks/reasoning_frontier_pipeline.py:58-67 | an edge continues another only at the next position of the same path |
| `FrontierOracle.GoalAnswers` | benchmarks/reasoning_frontier_pipeline.py:299-300 | the goal slice is entity 1 to entity chain |
| `Compaction.PermutedIffCoprime` | benchmarks/compaction.py:69-70 | for every key count and pass the permuted order is a bijection exactly when the count is coprime to 1000003 |
| `Compaction.PermutedIffNoMultiple` | benchmarks/compaction.py:69-70 | that is, exactly when the count is no multiple of 1000003 |
| `Compaction.StrideIsPrime` | benchmarks/compaction.py:70 | the stride has no proper divisor |
| `Compaction.CommonFactorCollides` | benchmarks/compaction.py:69-70 | with a common factor g, positions 0 and keys / g collide |
| `Compaction.CoprimeCancels` | benchmarks/compaction.py:70 | a multiplier coprime to the modulus can be cancelled |
| `Compaction.WritePass` | benchmarks/compaction.py:74-101 | a zero step is refused, an unknown order writes nothing, and otherwise exactly the keys of the pass hold its value, on either backend and with any batch size |
| `Compaction.WriteBatches` | benchmarks/compaction.py:86-100 | the batches of any size together write exactly the visits of the pass |
| `Compaction.GatherValues` | benchmarks/compaction.py:96-99 | the dictionary of one batch holds exactly the keys of its positions |
| `Compaction.PermutationWritesEachKeyOnce` | benchmarks/compaction.py:83-100 | when the visits are a permutation, each key is put once and holds the value, and nothing else changes |
| `Compaction.VisitsEachKeyOnceIff` | benchmarks/compaction.py:65-71 | the visits are one in sequential order always, in permuted order exactly when the key count is no multiple of 1000003 |
| `Compaction.VisitsMeaning` | benchmarks/compaction.py:65-71 | position p writes key p, or (p * 1000003 + pass * 9176) modulo the key count |
| `SpanEdits.RenderCode` | docs/_ext/database_examples.py:150-151 | applying the edits in descending span order is simultaneous substitution on the original code |
| `SpanEdits.ListingUnique` | docs/_ext/database_examples.py:150 | the edits have one ascending listing, so the substitution is determined by code and edits |
| `SpanEdits.BeforeMeaning` | docs/_ext/database_examples.py:150 | spans are ordered by start, then by end |
| `SpanEdits.ProgressStep` | docs/_ext/database_examples.py:151 | taking the last remaining edit keeps the text equal to the substitution of the edits taken so far |
| `SpanEdits.OutsideUnchanged` | docs/_ext/database_examples.py:74-89 | every character outside the spans is kept, shifted by the edits that end before it |
| `SpanEdits.ValueInPlace` | docs/_ext/database_examples.py:88-109 | every value, insertions at the end of a replaced span included, stands where its span was |
| `SpanEdits.SubstituteLength` | docs/_ext/database_examples.py:151 | the length changes by the growth of the edits |
| `InferenceExport.ExportInference` | src/gestaltdb/inference.py:61-166 | the loops give the first error in the order of the nodes, or a report with exactly the exported form of every node, exactly the supported justifications, and the truncation mark set exactly when due |
| `InferenceExport.ReadSupports` | src/gestaltdb/inference.py:124-148 | the inner loop reads one claim's supports, or stops at the first malformed or over-budget one |
| `InferenceExport.ReadNodes` | src/gestaltdb/inference.py:83-148 | the outer loop exports every node in order of identifier, or stops at the first error |
| `InferenceExport.ExportSucceedsIff` | src/gestaltdb/inference.py:74-166 | exactly when there is a report |
| `InferenceExport.ExportIsReport` | src/gestaltdb/inference.py:83-166 | a successful export, read off the explanation alone |
| `InferenceExport.ExportErrorMeaning` | src/gestaltdb/inference.py:74-166 | a failed one gives the error of the request, else of the first node that cannot be exported or exceeds the budget, else of the length |
| `InferenceExport.NodeMeaning` | src/gestaltdb/inference.py:83-123 | a rule or claim needs a version of its own identifier, an absence its evidence, a model its names; the exported kind and payload; only claims derived by rules have justifications read |
| `InferenceExport.OneSupport` | src/gestaltdb/inference.py:124-148 | a complete justification gives one support with its rule, premises and absences and weighs one more than these; an incomplete one gives none |
| `InferenceExport.AbsencesMeaning` | src/gestaltdb/inference.py:143-148 | the absences are written as one comma-separated list |
| `InferenceExport.SupportsAscend` | src/gestaltdb/inference.py:155-157 | sorted justifications ascend by conclusion, then rule, then premises, then absences |
| `InferenceExport.NodeOrderIrrelevant` | src/gestaltdb/inference.py:83 | every permutation of the nodes gives the same report or the same error |
| `InferenceExport.JustificationOrderIrrelevant` | src/gestaltdb/inference.py:155-157 | reordering recorded justifications changes neither the exported ones nor the truncation mark nor the weight |
| `InferenceExport.ReportFacts` | src/gestaltdb/inference.py:124-148 | exactly the justifications whose rule, premises and absences are exported nodes are exported, truncated is set exactly when the input was or one was dropped, and the edges fit the budget |
| `InferenceExport.ReportOrder` | src/gestaltdb/inference.py:83-157 | every node is exported exactly once, in ascending order of identifiers, and the justifications are sorted |
| `InferenceExport.ScanMeaning` | src/gestaltdb/inference.py:140-142 | the running count is the weight of the complete supports |
| `Sorting.StringLeMeaning` | src/gestaltdb/inference.py:83 | strings compare at the first place where they differ, and a prefix comes first |
| `Sorting.ListLeMeaning` | src/gestaltdb/inference.py:155-157 | and so do lists of strings |
| `IndexState.RunKeepsGood` | src/gestaltdb/indexes.py:112-130 | over any sequential run with any attempts failing, live names are the persisted ones, the count cache agrees with the store, and a family not marked stale misses no entry |
| `IndexState.ApplyKeepsGood` | src/gestaltdb/current.py:85-112 | each successful operation keeps this |
| `IndexState.EmptySessionIsGood` | src/gestaltdb/current.py:60-70 | a session opened on an empty store starts with it, and with clean tables |
| `IndexState.ApplyKeepsCleanIff` | src/gestaltdb/_graph/index_rebuild.py:26-77 | a successful operation leaves both tables without foreign entries exactly when it is a put, a count, an index creation, a rebuild that emits entries of indexed names only, or a load that replaces entries or loses none |
| `IndexState.DeferredRebuildIsFullScan` | src/gestaltdb/ingestion_service.py:127-149 | after a deferred rebuild nothing current is stale, and the entries of each family equal their full scan exactly when that family held no foreign entry before |
| `IndexState.TameRunThenRebuild` | src/gestaltdb/ingestion_service.py:127-149 | a run of operations that each keep the tables clean, closed by a deferred rebuild, ends with every index equal to its full scan |
| `IndexState.LoadStaysCleanIff` | src/gestaltdb/_graph/ingest_nodes.py:35-48 | a load, deferred or maintained, leaves no foreign entry exactly when it deletes what it replaces or no replaced record loses an entry |
| `IndexState.ApplyKeepsAdjacencyIff` | src/gestaltdb/_graph/ingest_edges.py:195-201 | an operation leaves the typed adjacency records exactly those of the stored edges unless it is an edge load, which does exactly when no replaced edge loses its type or moves an end |
| `IndexState.LoadKeepsAdjacencyIff` | src/gestaltdb/kvstores.py:361-364 | the condition on a load |
| `IndexState.RunKeepsAdjacency` | src/gestaltdb/_graph/edge_records.py:70-81 | so does a whole run of such operations |
| `IndexState.MovedEdgeLeavesRecord` | src/gestaltdb/kvstores.py:361-364 | an edge loaded again with another target leaves its reverse record, which the old target still counts |
| `IndexState.DeferredReplacementLeavesEntry` | src/gestaltdb/_graph/index_rebuild.py:36-75 | a node relabelled by a deferred load keeps its old label entry after the rebuild, with no stale mark |
| `CountCache.AdditionAgreesIff` | src/gestaltdb/_graph/adjacency.py:107-124 | without a transaction, writing any rows (repeated, stored already, or with a new target) keeps the cache right exactly when under every out key touched: if cached, the edge identifiers differ and none is stored; if not, the rows repeat as many as the store has records they leave alone |
| `CountCache.RemovalAgreesIff` | src/gestaltdb/_graph/adjacency.py:144-154 | deleting any rows keeps it right exactly when under every out key touched they delete every record, or the count was cached and they name that many different stored ones |
| `CountCache.PutEdgeAgreesIff` | src/gestaltdb/_graph/edge_records.py:70-81 | replacing one edge keeps it right exactly when the old out count was cached or the edge was its last, and the new one was cached, is the old one, or was zero |
| `CountCache.ReloadMiscounts` | src/gestaltdb/_graph/ingest_edges.py:195-206 | loading an edge again with another target makes a cached count of 1 say 2 while the store holds one record |
| `CountCache.RepetitionMiscounts` | src/gestaltdb/_graph/ingest_edges.py:50-103 | one batch that lists an edge twice with two targets leaves the cache wrong, from a correctly cached count of 0 |
| `CountCache.WrittenKeys` | src/gestaltdb/kvstores.py:1386-1391 | the rows of a bulk write put exactly their forward and reverse records, overwriting by (direction, node, type, edge) |
| `CountCache.WrittenValues` | src/gestaltdb/kvstores.py:1386-1391 | the last row with a record's key gives its value: the target for a forward record, the source for a reverse one |
| `CountCache.NamedOccur` | src/gestaltdb/_graph/adjacency.py:116-119 | the delta of an out key exceeds the number of records its rows name exactly when an edge identifier repeats |
| `CountCache.UpdateCountCache` | src/gestaltdb/_graph/adjacency.py:107-124 | the two loops move each out count by its occurrences, never below zero, and drop every in count touched |
| `CountCache.AddedCountIsRight` | src/gestaltdb/_graph/adjacency.py:114-122 | the same for one count that stays in the cache |
| `CountCache.RemovedCountIsRight` | src/gestaltdb/_graph/adjacency.py:114-122 | likewise after a deletion |
| `IndexState.PutKeeps` | src/gestaltdb/_graph/node_records.py:60-67 | a put deletes the old record's entries and writes the new ones |
| `IndexState.CreateKeeps` | src/gestaltdb/indexes.py:117-128 | a new index is complete, and clears the stale mark only when it is the only one |
| `IndexService.StorageSession.CreatePropertyIndex` | src/gestaltdb/indexes.py:112-130 | with any primitive or the commit failing, either all of the creation or none of it happened, in store and configuration, and with none failing it succeeds; all of it: the entries of the name for every record, its name published, the mark cleared only if it is the only name |
| `IndexService.StorageSession.Put` | src/gestaltdb/current.py:155-159 | a put is all or nothing, and all when no primitive and no commit fails; all of it: the record given is stored and its entries and adjacency replace those of the old one |
| `IndexService.StorageSession.Rebuild` | src/gestaltdb/indexes.py:100-110 | so is a rebuild; all of it: the entries grow by the scan of the properties given, of the live names if none are given, and exactly the marks of the covered families go |
| `IndexMeaning.RebuildMeaning` | src/gestaltdb/_graph/index_rebuild.py:26-77 | which entries a rebuild adds and which marks it clears, for a property list and for none, and that nothing else changes |
| `IndexMeaning.DefaultRebuildCovers` | src/gestaltdb/_graph/index_rebuild.py:30 | without a property list every entry of every live name is present afterwards and the property mark is gone when there are names; with labels also the label entries, and their mark |
| `IndexMeaning.CreateMeaning` | src/gestaltdb/indexes.py:112-130 | which entries an index creation adds, which name it publishes, when it clears the mark |
| `IndexMeaning.PutMeaning` | src/gestaltdb/_graph/node_records.py:60-67 | the records, entries and adjacency after a put |
| `IndexMeaning.IngestMeaning` | src/gestaltdb/_graph/ingest_nodes.py:35-48 | the records, entries, adjacency and marks after a load in each mode |
| `IndexMeaning.ScanLists` | src/gestaltdb/_graph/index_rebuild.py:36-54 | a scan has one entry for each label, for each value of a name, and for each pair of these, of every record |
| `IndexMeaning.LoadedJoins` | src/gestaltdb/kvstores.py:1386-1391 | the adjacency written for edges is one forward and one reverse record for each type of each edge, valued with the other end |
| `IndexService.StorageSession.Ingest` | src/gestaltdb/ingestion_service.py:22-35 | so is a columnar load, which is refused exactly for edges without append_only; all of it: every record given is stored, with entries exchanged, added or deferred by mode |
| `IndexService.StorageSession.CountTypedAdjacency` | src/gestaltdb/_graph/adjacency.py:71-90 | a cached count is the number of records the committed store holds below that direction, node and type |
| `IndexMeaning.CountMeaning` | src/gestaltdb/_graph/adjacency.py:71-90 | that count is of the records with that direction, node and type, whatever edge they belong to |
| `IndexService.StorageSession.RebuildDeferredIndexes` | src/gestaltdb/ingestion_service.py:127-149 | success rebuilds every stale current family and a failure keeps what was committed before it; when storage does not fail, it succeeds exactly when stale temporal history, if any, has a capability that rebuilds it, and a persisted temporal mark without one is refused after both rebuilds |
| `IndexMeaning.DeferredMeaning` | src/gestaltdb/ingestion_service.py:127-149 | a deferred rebuild scans, for nodes and for edges, exactly the families marked stale, and changes no record, name or adjacency |
| `IndexService.EmitEntries` | src/gestaltdb/_graph/index_rebuild.py:36-71 | the scan writes the full scan in batches of any size, and fails only when a write fails |
| `IndexService.RebuildIndexes` | src/gestaltdb/_graph/index_rebuild.py:26-77 | a rebuild adds the scan and clears a mark only for the families it covered, and fails only when a write fails |
| `IndexService.PutRecord` | src/gestaltdb/_graph/node_records.py:60-67 | the entries of the replaced record are deleted before the new ones are written; it fails only when a write fails |
| `IndexService.IngestRecords` | src/gestaltdb/_graph/ingest_nodes.py:35-48 | a maintained load replaces entries unless it is append-only, a deferred one marks its families stale, an edge load overwrites adjacency by key and deletes none; it fails only when a write fails or the load is refused |
| `IndexService.IngestIndexes` | src/gestaltdb/_graph/ingest_edges.py:206-216 | a maintained load adds exactly the entries of its records, a deferred one marks its label family and, with names configured, its property family stale; it fails only when a write fails |

## Left out

- `gestaltdb_typed_path`, `gestaltdb_deep_typed_query` and the early exits of the other workloads: they add only easy members.
- `bfs_age`: it is the loop of `gestaltdb_bfs` with a depth that is never absent; only its marked set is compared with the level-synchronous searches.
- Query engines: a query returns each target of the frontier, once for DISTINCT, in an arbitrary order.
- Random generators: a run of draws is a sequence of values in range, so frequencies over all draw sequences are proved, not probabilities.
- LockRuns.StepKeeps: the full invariant, which asynchronous exceptions outside the handlers break; `LockInterrupts.EventKeeps` keeps the part that survives them.
- LockMachine.FailedEnterRestores: the exceptions of the machine; `LockInterrupts.EventRunRestoresIff` has all of them.
- A `close` that raises has closed its descriptor and is the step that closes; exceptions in the lock manager.
- The Windows and unsupported-platform branches of the file lock, lock files being unlinked, and exceptions raised inside a weak-reference callback.
- Fairness of the lock, and freedom from deadlock over whole runs: `LockProgress` says what one thread waits for; one thread using two managers on one path is outside the documented contract.
- Floating-point rounding, NaN and infinite weights, and array shape and type in the cache: weights are reals in one-dimensional sequences, and the arrays themselves stand for the byte strings that identify them.
- `LockManager.live_lock_count`, `WalkTransitionCache.stats`, the JSON form and hash of hierarchies, `from_definitions` and `parents_of`: forwarding and formatting.
- Other checks of the roadmap script: workbook columns, coverage, issue numbers and the Markdown table.
- The schema rows and the sets of individuals, classes and properties that a workload carries along; the reasoners that are compared with the closures.
- The payload text of a pass (`make_value`) and its timing; keys are the numbers their text encodes.
- SpanEdits.RenderCode: stated for spans that do not overlap, which is what replaced names and literals, and insertions at or after their ends, give; the source does not test for overlap.
- Finding the spans: parsing the example code and collecting the edits from its syntax tree.
- The JSON encoding of a report: its length is a parameter, identifiers of absence nodes are given with the recorded absences, and an absence is its JSON text.
- Range index entries, which are written and deleted beside the equality entries; row counts returned by rebuilds; several chunks, or one identifier twice, in one load; node deletion with its incident edges; legacy adjacency blobs.
- The separate type column of an edge load, which is taken to agree with the type in the edge's payload.
- The byte encoding of store keys, in which an identifier with a separator byte could run into its neighbour.
- Sessions on stores without transactions, except for the count cache; transaction-bound children; concurrent index creation, because the live name is published after the write scope has closed.
- Temporal history: its index is rebuilt elsewhere and only its stale mark and capability appear.
- Backends, drivers, files, containers, plotting, documentation builds and command lines.
