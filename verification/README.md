# Verified model of Nezha's concurrency control

Nezha turns the read and write sets of a block of transactions into a parallel
order that is safe to run.  This project models its scheduling algorithms in
Dafny, in the imperative form they are written in, and proves what they are for:
that whatever runs in parallel has the effect of a serial order, that every
transaction is dispatched once and finishes, that the orders and levels computed
are the right ones, and which cycles cycle removal breaks.

The parts, and the files that hold them:

- **State and deltas** (`Deltas.dfy`, `ContractState.dfy`).  Committed words are
  256-bit values; a write is kept as a signed delta and added to whatever is there.
  All contracts share one store, each under its name.
- **Histories** (`Footprint.dfy`).  One theorem on reordering runs of
  transactions whose footprint depends on the state they run on.  Depurge, Vegeta
  and the variant's level loop use it.
- **Depurge** (`DepurgeModel.dfy`, `DepurgeInvariant.dfy`, `DepurgeSteps.dfy`,
  `DepurgeRuns.dfy`, `DepurgeTheorems.dfy`, `DepurgeLevels.dfy`, `DepurgeLanes.dfy`,
  `DepurgeScheduler.dfy`).  The last file holds the classes, updated in place;
  their methods are proved to perform the events of the protocol, about which the
  invariant and the theorems over all runs are proved, and to leave the queues and
  lanes as described key by key.  Each public method is one step, because one mutex
  guards them all.
- **Nezha** (`AddressQueues.dfy`, `SortFunction.dfy`, `SortExact.dfy`,
  `SortResult.dfy`, `QueueSorting.dfy`, `Nezha.dfy`, `SnapshotCommit.dfy`,
  `LevelCommit.dfy`, `LevelExact.dfy`, `WriteCollision.dfy`, with
  `TopologicalSort.dfy`, `SortOrder.dfy` and `Ranking.dfy`).  Address queues, their
  ranking, the sorting of one queue phase by phase against a functional
  specification, what that comes to for each transaction, and whole runs.  A flag
  selects the variant that keeps every read-modify-write transaction.  Outside it
  the values computed on the block's initial state are committed by number; the
  variant executes every transaction again, level by level.
- **Vegeta** (`Vegeta.dfy`).  Conflict DAG, batched replay, in which the workers of
  a batch interleave arbitrarily, and serial replay of what did not match.
- **Cycle removal** (`Digraph.dfy`, `Tarjan.dfy`, `Johnson.dfy`,
  `CycleBreaking.dfy`, `ConflictGraph.dfy`).  Components, cycle enumeration with
  blocking lists, the greedy hitting set, and the two conflict-graph builders.
- **Sorting** (`Sorting.dfy`), **sequences** (`Sequences.dfy`) and **depths**
  (`Depths.dfy`).  The library sorts and the order of strings, traversal of a map in
  an unspecified order, the set, ranks and first occurrences of a sequence, and the
  longest chains of a relation along a list.

## Assumptions

- Transaction identifiers are unique, and none is the empty string, which Depurge
  uses as a sentinel.
- Depurge protocol: a transaction is re-executed, pruned, published, executed or
  aborted only while in flight; pruning spares the keys it really touched; it
  publishes only what lies within the keys it was queued for, after its pop and
  before its `Execute`.
- Re-execution repeats itself on every state that agrees on the keys it touched
  (`Footprint.WellBehaved`): same reads, same deltas, same success or failure.  It
  is a parameter.  The variant's level loop compares only deltas, so where its claims
  are made from the nodes, what is read there was announced.
- Nezha: a transaction has at most one read and one write node per address, and a
  block has at least one node and fewer nodes than a 32-bit number can count.  The
  variant indexes the first node of every list, so there no list is empty.
- Addresses are composite, contract and storage slot.  The commits of Nezha
  (`test.go:483-508`, `test.go:1285-1304`) and Vegeta's predicted sets
  (`test.go:1419-1431`) use the bare slot, so no two contracts of a block share one.
- Graph indices are in range.

Six properties that one would expect do not hold of the code, which is followed.
Each has a failing input and the condition under which it holds:

- The comment above `FindCycles` promises all cycles.  A cycle is recorded exactly if
  it has two or more vertices or its component has three or more (`LoneLoop`,
  `PairLoop`, `FindCycles`).
- Adding deltas in any order should give the same words.  A stored value that was
  never reduced can yield a delta below -2^256, and exactly the deltas from -2^256 on
  can be added in any order (`OvergrownDelta`, `OvergrownIsReached`, `AddableDeltas`,
  `ExchangeableDeltas`).
- Surviving writes of one address should end with different numbers.  A later queue
  can move a writer of two addresses onto the number of another writer
  (`CollideInRun`); two writers that write the same address last stay apart
  (`StillApart`, `ApartMeansApartNodes`).
- The variant's levels should commit like a serial execution.  They do, whatever the
  transactions compute, exactly if no two transactions of a level conflict, which on
  acyclic dependencies means that at every address the writers are apart
  (`CollideInCommit`, `LevelsSerialIff`, `BlockSerialIff`).
- The comments call the order of the queues unique and break ties by address.  Ties
  among queues freed together follow the arcs, which come from a map in any order: two
  sequences are possible for one block (`TwoSequences`).  The sequence is the same for
  all of these orders exactly if no queue is the last that two others wait for
  (`RankingIsOne`, `RankingVaries`).
- A transaction should validate on the state it was predicted on.  It does exactly if
  every word it writes without a read is below 2^255 (`LargeBlindWrite`, `ValidatesAlone`).

## Model

| member | source | states |
|---|---|---|
| Deltas.HashIsValueMod256 | ethereum/go-ethereum/common/types.go:110-116 | Cropping or padding bytes to a 32-byte word reads back their value modulo 2^256, for byte strings of any length. |
| Deltas.FromBytesInjective | utils/data.go:868 | Two byte strings of equal length with equal values are equal, so a word is determined by its value. |
| Deltas.NormalisedDelta | utils/data.go:976-1005 | For any stored value, reduced or not, the delta is congruent to new minus old and below 2^255; it reaches -2^255 exactly if the stored value is at most the new word plus 3·2^255, and -2^256 exactly if at most the new word plus 2·2^256. |
| Deltas.BumpedIsCongruent | test.go:649-667 | For every stored value and every delta: what is stored is congruent to the plain sum exactly if the sum is at least -2^256 or a multiple of 2^255. |
| Deltas.AddableDeltas | test.go:649-667 | A delta can be added to every stored value if and only if it is at least -2^256. |
| Deltas.OvergrownDelta | utils/data.go:987-1000 | A failing input: a stored value of 4·2^256, overwritten by 1 without a read, gives a delta that is wrong on an absent key. |
| Deltas.AnyValueIsReached | test.go:649-667 | Stored values are not bounded: from the empty state, updates that read and write one key bring it to any value. |
| Deltas.OvergrownIsReached | utils/data.go:987-1000 | So that failing input is reached by a run of updates. |
| Deltas.ExchangeableDeltas | test.go:649-667 | The order of a delta and another addable one is invisible on every stored value if and only if the delta is itself addable. |
| Deltas.UpdateCommittedState | test.go:649-667 | The in-place loop over a write delta, in any key order, yields the point-wise update, under composite keys. |
| Deltas.UpdatesAccumulate | test.go:649-667 | After any sequence of updates with deltas of at least -2^256, a key's value is congruent to its initial value plus all its deltas. |
| Deltas.TotalDeltaPermutes | test.go:649-667 | The total delta of a key does not depend on the order of the updates. |
| Deltas.UpdateOrderIsInvisible | test.go:649-667 | Every permutation of such updates reads back the same 32-byte word. |
| Deltas.DeltaRoundTrip | utils/data.go:976-1005 | Applying the delta of a new word reads back exactly that word, whatever is stored, whether the key was read (then reduced) or not (then taken raw). |
| ContractState.ShareIff | test.go:631-633 | Two contracts have a composite key in common exactly if the name of one, followed by the separator, begins that of the other. |
| ContractState.PlainNamesApart | test.go:631-633 | Distinct contract names without the separator never share a composite key. |
| ContractState.FilterContractState | test.go:636-646 | The result holds a slot exactly if the store has it under the composite key, with its value. |
| ContractState.ViewOfUpdate | test.go:636-667 | Updating a contract and then filtering its state is filtering first and adding the deltas to that. |
| ContractState.ViewOfOther | test.go:636-667 | It leaves the filtered state of every contract that shares no composite key with it. |
| Footprint.Swap | test.go:649-667 | Two adjacent runs that do not conflict can be exchanged: same outcomes, same state. |
| Footprint.Rearrange | core/Depurge.go:209-297 | A history that respects an order on its conflicting pairs can be rearranged into that order, run for run, with the same final state. |
| Footprint.SerialEquivalence | core/Depurge.go:209-297 | Such a history leaves the state that running its transactions one at a time in that order leaves. |
| Footprint.SerialOutcomes | core/Depurge.go:209-297 | In that serial execution every transaction has the outcome it has in the history. |
| DepurgeInvariant.DropKeeps | core/Depurge.go:209-234 | Taking a front transaction off one key queue and notifying the next keeps the whole invariant: queue contents and order, counts, fronts, lanes. |
| DepurgeSteps.FinishKeeps | core/Depurge.go:209-261 | `Execute` and `Abort` of an in-flight transaction keep the invariant and take it out of every queue. |
| DepurgeSteps.PruneKeeps | core/Depurge.go:263-297 | `Prune` keeps the invariant; the transaction gives up exactly its keys outside the real ones. |
| DepurgeSteps.PopReadyKeeps | core/Depurge.go:323-333 | `PopReady` moves the head of the ready list into flight and keeps the invariant. |
| DepurgeSteps.PopPruneReadyKeeps | core/Depurge.go:348-358 | The same for the second list. |
| DepurgeSteps.AddKeeps | core/Depurge.go:119-151 | `addTransaction` keeps the invariant and appends the transaction to the serial order. |
| DepurgeSteps.InitialInv | core/Depurge.go:106-117 | The empty scheduler satisfies the invariant. |
| DepurgeRuns.PublishStep | core/Depurge.go:209-234 | Publishing between pop and `Execute` extends a genuine history that respects insertion order, and no other worker's re-execution is disturbed. |
| DepurgeRuns.DisjointInFlight | core/Depurge.go:263-297 | Two validated in-flight transactions touch no common key, read or written, whatever was pruned. |
| DepurgeRuns.StepKeeps | core/Depurge.go:119-358 | Every protocol step of every worker keeps the run invariant. |
| DepurgeRuns.ReachedIsGood | core/Depurge.go:119-358 | The run invariant, with the scheduler's, holds after every protocol run; every transaction entered the lanes at most once and was popped at most once. |
| DepurgeTheorems.AlwaysSerial | core/Depurge.go:119-358 | At every moment of every run the committed state is the serial execution, in insertion order, of what was published. |
| DepurgeTheorems.ReachedIsAccounted | core/Depurge.go:209-261 | What finished published was executed, what finished unpublished was aborted, and the serial order is the order of the calls that added them. |
| DepurgeTheorems.DepurgeIsSerial | core/Depurge.go:119-358 | Serial equivalence: for every interleaving, the final state equals running the executed transactions one at a time in the order they were added. |
| DepurgeTheorems.MutualExclusion | core/Depurge.go:224-297 | No two ready or in-flight transactions hold a common key. |
| DepurgeTheorems.EarliestIsDispatchable | core/Depurge.go:209-297 | The earliest unfinished transaction is always ready, prune-ready or in flight. |
| DepurgeTheorems.Progress | core/Depurge.go:209-297 | While something is unfinished, something is ready, prune-ready or in flight. |
| DepurgeTheorems.StuckIsIdle | core/Depurge.go:323-358 | If no step that changes anything is enabled, the lanes are empty and nothing is in flight. |
| DepurgeTheorems.MaximalRunFinishesAll | core/Depurge.go:323-358 | A run in which no step that changes anything is enabled has finished every transaction, each having entered a lane once and been popped once, and its state is the serial execution of the executed ones. |
| DepurgeTheorems.PotentialFalls | core/Depurge.go:209-358 | Every pop and every finish lowers the measure by one, and nothing but adding raises it. |
| DepurgeTheorems.StepsAreBounded | core/Depurge.go:209-358 | Over a whole run, the pops and finishes so far plus the remaining measure are twice the number of added transactions. |
| DepurgeTheorems.RunsEnd | core/Depurge.go:209-358 | Every run has at most two such steps per added transaction, and exactly two if it can go no further. |
| DepurgeTheorems.SameOutcomes | core/Depurge.go:209-234 | In the serial execution every published transaction has the outcome it was published with, and none fails. |
| DepurgeLevels.SharingDeepens | core/Depurge.go:360-385 | A later transaction that shares a key lies strictly deeper. |
| Depths.ChainIsNoLonger | core/Depurge.go:360-385 | Along any list and for any relation of earlier to later: no chain of related members ending at a place is longer than its depth allows. |
| Depths.DepthIsLongestChain | core/Depurge.go:360-385 | A chain of exactly that length exists. |
| Depths.NoLevellingIsShorter | core/Depurge.go:360-385 | Every levelling that puts related members strictly in order puts each at its depth or later. Levels use it for shared keys, batches for conflicts. |
| DepurgeLevels.LevelIsDisjoint | core/Depurge.go:360-385 | Transactions of equal depth share no key. |
| DepurgeLevels.ReadyAreNext | core/Depurge.go:209-234 | Once all shallower transactions are executed, whatever is ready has the current depth. |
| DepurgeLevels.NextAreReady | core/Depurge.go:209-234 | Conversely everything of that depth is ready. |
| DepurgeLevels.LevelDone | core/Depurge.go:360-385 | After one level everything left is deeper. |
| DepurgeLanes.LaneOf | core/Depurge.go:209-297 | In any state `Execute` only appends to the ready list and leaves the prune-ready one; `Abort` and `Prune` the other way round. |
| DepurgeLanes.PruneQueues | core/Depurge.go:263-297 | In any state, key by key: the transaction leaves the queues of its keys outside the real ones, everyone else keeps their place, and no other queue changes. |
| DepurgeLanes.FinishQueues | core/Depurge.go:209-261 | In any state, key by key: of the transaction's keys exactly the queues it heads lose their head, and no other queue changes. |
| DepurgeLanes.FinishedIsNowhere | core/Depurge.go:209-261 | A finished transaction is marked and stands in no queue. |
| DepurgeLanes.FinishArrives | core/Depurge.go:209-261 | Whoever arrives in the lane waited for some key and for none but those given up now, and they arrive in the order in which the keys they waited for last were given up. |
| DepurgeLanes.PruneArrives | core/Depurge.go:263-297 | The same for the keys that are pruned. |
| Sorting.StringLeIs | core/Depurge.go:395-397 | The comparison is the order of a dictionary: a common beginning, after which the first string ends or has the smaller character. |
| DepurgeScheduler.UnlinkIsRemove | core/Depurge.go:63-71 | Unlinking the indexed list node removes exactly that transaction. |
| DepurgeScheduler.TransactionQueue.IndexMirrors | core/Depurge.go:9-62 | The index knows a transaction exactly if it is queued. |
| DepurgeScheduler.TransactionQueue.Push | core/Depurge.go:23-29 | Appends unless already queued; list and index stay in agreement. |
| DepurgeScheduler.TransactionQueue.Pop | core/Depurge.go:31-40 | Removes and returns the head, or the sentinel. |
| DepurgeScheduler.TransactionQueue.Front | core/Depurge.go:42-48 | The head, or the sentinel. |
| DepurgeScheduler.TransactionQueue.Contains | core/Depurge.go:58-61 | Membership by the index is membership in the queue. |
| DepurgeScheduler.TransactionQueue.Remove | core/Depurge.go:63-71 | Removes the transaction wherever it stands; reports whether it was there. |
| DepurgeScheduler.DepurgeScheduler.AddTransaction | core/Depurge.go:119-151 | In every reachable state the method performs the protocol event of adding, and the transaction is listed with its keys, each once and in dictionary order. |
| DepurgeScheduler.DepurgeScheduler.Execute | core/Depurge.go:209-234 | Of an in-flight transaction the method performs the event of executing: the invariant holds with the transaction finished, it stands in no queue, and only the ready list grows, by those who come free, in the order their keys do. |
| DepurgeScheduler.DepurgeScheduler.Abort | core/Depurge.go:236-261 | Of an in-flight transaction the method performs the event of aborting: the invariant holds with the transaction finished, it stands in no queue, the ready list is unchanged, and those who come free join the prune-ready list, in the order their keys do. |
| DepurgeScheduler.DepurgeScheduler.Prune | core/Depurge.go:263-297 | The transaction stands in the queue of a key afterwards exactly if it did before and the key is real or not listed; everyone else keeps their place; newcomers join the prune-ready list only; of an in-flight transaction it is the protocol event of pruning. |
| DepurgeScheduler.DepurgeScheduler.PopReady | core/Depurge.go:323-333 | Returns the head, or the sentinel, leaves the rest, and performs the protocol event. |
| DepurgeScheduler.DepurgeScheduler.PopPruneReady | core/Depurge.go:348-358 | The same for the second list. |
| DepurgeScheduler.DepurgeScheduler.RunLevel | core/Depurge.go:360-385 | One round of `schedule` returns, sorted, exactly the transactions of the current depth and executes them. |
| DepurgeScheduler.DepurgeScheduler.Schedule | core/Depurge.go:360-385 | The levels partition all transactions; a transaction's level number is its depth; everything ends executed. |
| DepurgeScheduler.DepurgeSchedule | core/Depurge.go:387-421 | Transactions are added in dictionary order of their identifiers, each queued for exactly the keys it is predicted to read or write, once each and in dictionary order. |
| DepurgeScheduler.Deduplicate | core/Depurge.go:119-151 | Every key once, in the order of their first occurrences. |
| AddressQueues.ClassifyRmw | core/conflict_queue.go:232-266 | A determined write whose own read is assigned joins the read-modify-writes, in queue order. |
| AddressQueues.ClassifyAbort | core/conflict_queue.go:232-266 | A determined write pinned by a read elsewhere is aborted, and nothing else changes. |
| AddressQueues.ClassifyOther | core/conflict_queue.go:232-266 | Any other determined write is filed under its number. |
| AddressQueues.KeptDiffer | core/conflict_queue.go:282-326 | Read-modify-writes, new writes and kept heads of buckets have pairwise different numbers. |
| AddressQueues.Settle | core/conflict_queue.go:324-336 | Moving a write behind everything keeps all settled writes apart, and numbers only rise. |
| AddressQueues.BandsHold | core/nezha_variable.go:175-330 | Surviving pure readers, read-modify-writers and blind writers form three strictly increasing bands, with all write numbers distinct. |
| AddressQueues.OneRmwLeft | core/conflict_queue.go:282-295 | At most one surviving transaction both reads and writes the address. |
| AddressQueues.NumbersRise | core/conflict_queue.go:180-337 | No determined survivor's number falls, only the queue's own writers' numbers rise, and every transaction of the queue ends numbered. |
| AddressQueues.AbortsExplained | core/conflict_queue.go:232-295 | Whoever the call aborts is a write pinned by a read elsewhere or, outside the variant, a read-modify-write standing behind another one that survives the call; so the variant aborts no read-modify-writer of the address. |
| AddressQueues.FirstSurvives | core/conflict_queue.go:282-295 | The first read-modify-write of a sorted queue survives the call. |
| AddressQueues.ReadersStayLow | core/conflict_queue.go:186-229 | A surviving pure reader without a number gets one at or below every other reader of the address. |
| AddressQueues.QueueIsSorted | core/conflict_queue.go:180-337 | The phases of one call together achieve all of the above. |
| AddressQueues.BandsAreSafe | core/conflict_queue.go:180-337 | In a sorted queue every surviving read lies strictly below every surviving write of a different transaction. |
| QueueSorting.QueueGraph.AssignSequence | core/rwset_builder.go:54-61 | Afterwards all nodes of the transaction share its number, and no other node changed. |
| QueueSorting.QueueGraph.PlaceReads | core/conflict_queue.go:186-229 | Reads are placed: determined numbers stay, every surviving reader is at or below the returned maximum, new ones at the minimum. |
| QueueSorting.QueueGraph.LookBack | core/conflict_queue.go:239-252 | Finds exactly whether the transaction has an assigned read at this address or, failing that, at another one. |
| QueueSorting.QueueGraph.Classify | core/conflict_queue.go:232-266 | Every determined write is classified exactly once, in order. |
| QueueSorting.QueueGraph.PlaceRmws | core/conflict_queue.go:276-295 | The first read-modify-write takes the number right above the reads and the others abort; in the variant each takes the next number. |
| QueueSorting.QueueGraph.NextFree | core/conflict_queue.go:302-312 | The search finds the least number above the maximum that no kept write has, within the bound, so before the 32-bit limit. |
| QueueSorting.QueueGraph.PlaceNewWrites | core/conflict_queue.go:298-313 | Undetermined writes get increasing numbers that avoid all kept ones, at a cost of one per write. |
| QueueSorting.QueueGraph.MoveBucket | core/conflict_queue.go:324-336 | All of a bucket is moved behind everything, save a first write already above the reads. |
| QueueSorting.QueueGraph.MoveOthers | core/conflict_queue.go:315-336 | Every remaining write ends settled, and the numbers stay within one per write node. |
| QueueSorting.QueueGraph.SortInQueue | core/conflict_queue.go:180-337 | The in-place method leaves exactly the state that the functional specification gives, and so bands, distinct writes, one read-modify-write, rising numbers and a bound that grows by the queue's write nodes only; and the exact result of `SortIsExact`. |
| SortFunction.SortsToOne | core/conflict_queue.go:180-337 | The specification of one call determines its result: equal queues and states give equal numbers, aborts and maxima. |
| SortResult.AbortsAreExact | core/conflict_queue.go:232-295 | A transaction is newly aborted if and only if it writes the address without reading it, had a number at or below the largest read number and has an assigned read at another address; or, outside the variant, stands behind a read-modify-write that survives. |
| SortResult.ReadsAreExact | core/conflict_queue.go:186-229 | The largest read number is that of the determined readers, or the initial one; a pure reader keeps its number or takes the smallest determined one; nobody outside the queue changes. |
| SortResult.MarksAreExact | core/conflict_queue.go:186-229 | Of the survivors' reads, assigned are afterwards exactly those that were and those of the queue. |
| SortResult.RmwsAreExact | core/conflict_queue.go:276-295 | The surviving read-modify-writes take all numbers right above the reads, in queue order. |
| SortResult.NewAreExact | core/conflict_queue.go:298-313 | Writers without a number take, in queue order, the first numbers above those that no other writer holds. |
| SortResult.OldsAreExact | core/conflict_queue.go:315-336 | A writer above the reads that is the first in the queue with its number stays; all others take the next numbers after everything, by the number they give up and then by queue order, leaving none out. |
| SortResult.SortIsExact | core/conflict_queue.go:180-337 | All of this for every result of the specification: every abort, every number of a survivor and both maxima. |
| SortResult.ReaderElsewhereMoves | core/conflict_queue.go:232-295 | A survivor with an assigned read elsewhere and a number among the reads is moved exactly if it both reads and writes the address. |
| Nezha.CreateGraph | core/conflict_queue.go:29-54 | One edge per transaction with nodes, one queue per address, holding exactly that address's reads and writes in the order of the block; empty lists are skipped, and in the variant there must be none. |
| Nezha.InitialSorting | core/conflict_queue.go:57-70 | Splits reads from writes, loses none, and keeps the order of each. |
| Nezha.Dependencies | core/conflict_queue.go:97-128 | An arc from a written queue to a read one exactly if some transaction writes the one and reads the other. |
| Nezha.DepsAreProper | core/conflict_queue.go:97-128 | The dependency graph is in range, has no self-loop, and its in-degrees fit the program's integers. |
| Nezha.AcyclicDeps | core/conflict_queue.go:97-145 | If no chain of addresses returns to its start, the index graph has no cycle. |
| Nezha.QueuesSort | core/conflict_queue.go:73-145 | Every queue exactly once, ranked by the cycle-tolerant sort of the dependencies of the addresses in dictionary order; without cyclic dependencies, each queue before those it depends on. |
| Ranking.TwoSequences | core/conflict_queue.go:97-145 | A failing input for a unique order: t writes a and reads b and c. Both a, b, c and a, c, b are possible. |
| Ranking.RankingIsOne | core/conflict_queue.go:73-145 | If no queue of a ranking is the last that two others wait for, every ranking of the block is the same sequence. |
| Ranking.RankingVaries | core/conflict_queue.go:73-145 | Otherwise some order of the same arcs leads to no sequence but different ones. |
| Nezha.ReaderIsFinal | core/conflict_queue.go:148-155 | In a dependency order no reader of a sorted queue writes a queue still to come. |
| Nezha.StillSafe | core/conflict_queue.go:148-155 | Sorting later queues of a dependency order leaves the sorted ones' reads below their writes. |
| Nezha.OnlyDisplaced | core/conflict_queue.go:232-295 | In a dependency order the abort for a read elsewhere never fires; the only aborts are later read-modify-writes of one address. |
| Nezha.StillApart | core/conflict_queue.go:148-155 | Pair by pair: two surviving writes of a sorted address keep different numbers while later queues are sorted, if neither transaction writes one of those. |
| Nezha.StillLayered | core/conflict_queue.go:148-155 | Sorting later queues of a dependency order leaves a sorted queue's three bands and the distinct numbers of its read-modify-writers, in both variants. |
| Nezha.TraceIsOne | core/conflict_queue.go:148-155 | The queues, their order and the first state determine every state of a run. |
| Nezha.AbortedInRun | core/conflict_queue.go:148-155 | A transaction is aborted in a run if and only if one of its calls had to abort it: its write was pinned there, or it stood behind a surviving read-modify-write. |
| Nezha.AssignedIsSorted | core/conflict_queue.go:148-155 | At every moment of a run a survivor's reads are assigned exactly at the addresses sorted so far. |
| Nezha.PinnedInRun | core/conflict_queue.go:232-257 | So in a run a write is pinned exactly if it does not read the address, has a number at or below the largest read number, and its transaction reads an address sorted before. |
| WriteCollision.Collide | core/conflict_queue.go:148-155 | A failing input for unrestricted write distinctness: t1 writes a and b, c writes a and reads b, t2 writes a. Sorted a before b, t1 and t2 both end at 12. |
| WriteCollision.CollideInRun | core/conflict_queue.go:73-177 | The program itself on that block, in either variant: the dependencies leave one ranking, nobody is aborted, and both writers end at 12. |
| Nezha.NumbersNeverFall | core/conflict_queue.go:148-177 | Over a whole run a survivor's number never falls once it is set. |
| Nezha.FiledPlusAborted | core/conflict_queue.go:157-177 | Filed survivors and aborted transactions together are all transactions, each once. |
| Nezha.File | core/conflict_queue.go:157-177 | Every survivor is filed exactly once, under its number, with exactly its write nodes. |
| Nezha.GetAbortedNums | core/conflict_queue.go:352-363 | The number of aborted transactions. |
| Nezha.DeSS | core/conflict_queue.go:148-177 | All nodes of a transaction share one positive number, at most the initial one plus the number of write nodes; writes of transactions that write nothing later are apart; on a dependency order the three bands hold at every address at the end, in both variants, and outside the variant all reads are safe. |
| Nezha.SafeMeansSafeReads | core/conflict_queue.go:148-177 | Stated per node: every surviving read has a smaller number than every surviving write of the same address by another transaction. |
| Nezha.ApartMeansApartNodes | core/conflict_queue.go:148-177 | Per node: at every address they share, surviving writes of two transactions have different numbers if the address either writes last, in the order of sorting, is the same. |
| Nezha.LayeredMeansLayeredNodes | core/nezha_variable.go:175-330 | Per node: readers below read-modify-writers below blind writers, and the read-modify-writers apart. |
| Nezha.ProcessTransactions | core/nezha_variable.go:343-351 | A block end to end, in both variants: queues in block order, ranked, sorted call by call as specified, who is aborted by which call and nobody else, bounds, filing and counts, distinct numbers of writes whose transactions write the same address last; on acyclic dependencies the three bands; outside the variant safe reads, and every aborted transaction stood behind another read-modify-write of one address; in the variant nobody is aborted. |
| SnapshotCommit.SafeIsQuiet | core/conflict_queue.go:148-177 | With safe reads, in any listing of the survivors by number nobody reads an address that an earlier one writes. |
| SnapshotCommit.CommitIsSerial | test.go:483-508 | If nobody who writes reads what an earlier one wrote, each does what it did on the block's initial state, and applying these writes in order is running the transactions one at a time. |
| SnapshotCommit.AlikeIff | test.go:483-508 | That condition is exact for everyone acting as on the initial state: it holds if and only if they do so whatever they compute from their read nodes. |
| SnapshotCommit.SerialIff | test.go:483-508 | For the committed state the exact condition is weaker: it is the serial one, whatever the transactions compute, if and only if the last writer of each address reads no address that an earlier one writes. |
| SnapshotCommit.QuietIsLastQuiet | test.go:483-508 | The first condition implies the second. |
| SnapshotCommit.HighestWriteStands | test.go:483-508 | An address ends with the value of its highest-numbered surviving writer, computed on the initial state. |
| SnapshotCommit.ListingsAgree | test.go:501-508 | Any two listings by number leave the same value at an address whose surviving writers are apart: the order inside a commit group does not show. |
| SnapshotCommit.CommitByNumber | test.go:483-508 | Both together, from what a block's run guarantees: the commit is serial, and every address whose surviving writers all write the same address last ends with the highest-numbered one's value. |
| LevelCommit.WriteDeltaEqual | utils/data.go:831-845 | Comparing sizes and looking up one set's keys in the other decides whether both have the same keys and deltas. |
| LevelCommit.ValidateLevel | test.go:1185-1262 | The workers of a level, ending in any order: exactly those that have a context, do not fail and repeat their predicted deltas on the level's state are validated, each with the deltas it had there; the others are counted. |
| LevelCommit.AddDelta | test.go:1285-1303 | The loop over a write delta, in any key order, yields the point-wise update. |
| LevelCommit.AddLevel | test.go:1285-1304 | The validated deltas are added one transaction after the other, in the order the workers ended. |
| LevelCommit.CommitLevels | test.go:1172-1305 | Level by level in increasing order; every level is validated on what the lower ones left, and validated and failed ones together are all candidates. |
| LevelCommit.LevelIsSerial | test.go:1172-1305 | If no two of a level's outcomes conflict, each transaction acts in turn as on the state the level began with, and the level leaves what running them one at a time leaves. |
| LevelCommit.LevelsAreSerial | test.go:1172-1305 | If no two validated outcomes of a level conflict on its state, the committed state is the serial execution of the validated transactions by number, and each of them validates again in it. Any programs, any predictions. |
| LevelCommit.ApartIsPeaceful | test.go:1172-1305 | They do not conflict if they read announced addresses there and the announced addresses of a level are apart. |
| LevelExact.ExecutionIsWellBehaved | utils/data.go:901-931 | Re-execution, words turned into deltas against what was read or is stored, repeats itself on states that agree on the keys it touches. |
| LevelExact.ValidatesAlone | core/rwset_builder.go:111-150 | Pre-execution leaves the delta of a blind write unnormalised: a transaction validates on the very state it was predicted on if and only if every word it writes without a read is below 2^255. |
| LevelExact.LargeBlindWrite | core/rwset_builder.go:111-150 | A failing input: a transaction that writes 2^255 to one key and reads nothing does not validate there. |
| LevelExact.ClashShows | test.go:1172-1305 | Two candidates of a level that conflict, with a context for everyone: there are words for which the levels leave 1 or 2 at a key where one at a time leaves another value. |
| LevelExact.LevelsSerialIff | test.go:1172-1305 | Exact: the levels commit serially for all words the transactions may compute from their reads, with the predictions of pre-execution, in all orders of the workers, if and only if no two candidates of a level conflict. |
| LevelExact.BlockSerialIff | test.go:1172-1305 | For the levels of a block with acyclic dependencies: if and only if at every address the surviving writers are apart. |
| LevelCommit.CandidatesByNumber | core/conflict_queue.go:157-177 | The candidates of a level are exactly the survivors of that number that write something. |
| LevelCommit.LayeredLevels | core/nezha_variable.go:175-330 | On acyclic dependencies the levels are free of conflicts if and only if at every address the surviving writers are apart: no reader shares a level with another's write. |
| LevelCommit.ProcessVariable | test.go:1128-1305 | A block through the variant and its level loop, end to end: who is validated, who is counted, and, whenever no two validated outcomes of a level conflict, the serial execution by number, in which nobody fails and everyone writes what was predicted; when that follows from the nodes; and on acyclic dependencies, that the levels' nodes are apart exactly if writers are. |
| LevelExact.BlindLevels | test.go:1172-1305 | Two blind writers of 1 alone in a level: however the workers end, the levels leave 2 and one at a time leaves 1. |
| WriteCollision.CollideInCommit | test.go:1128-1305 | The program itself on the block above, level loop included: all three transactions have contexts and validate, and the address ends at 2 where one at a time leaves 1. |
| TopologicalSort.AlGraph.constructor | core/classical_graph.go:28-67 | In-degrees count the arcs. |
| TopologicalSort.AlGraph.Sources | core/classical_graph.go:142-150 | Exactly the unsorted vertices of in-degree zero, by increasing index. |
| TopologicalSort.AlGraph.Visit | core/classical_graph.go:136-200 | Sorting a vertex lowers exactly the in-degrees behind it, which still count arcs from unsorted vertices, and returns the vertices that came down to zero, in the order of their last arcs. |
| TopologicalSort.AlGraph.FindMaxNode | core/classical_graph.go:203-232 | Among unsorted vertices of the given in-degree, the first with most arcs. |
| TopologicalSort.NoSourceMeansCycle | core/classical_graph.go:136-200 | If unsorted vertices remain and none is a source, the graph has a cycle. |
| TopologicalSort.StepwiseMore | core/classical_graph.go:136-200 | A vertex taken as a source, or as the choice when no unsorted vertex is one, continues such an order. |
| TopologicalSort.InLineMore | core/classical_graph.go:157-178 | Serving the head of the work list and appending those it frees keeps the whole order first in, first out. |
| TopologicalSort.AlGraph.AdvancedTopologicalSort | core/classical_graph.go:136-232 | Ends on every non-empty loop-free graph, cyclic or not, with every vertex exactly once; each is a source among the unsorted ones or, when there is none, the first of those with most arcs among those of least in-degree; sources are served first in, first out: the initial ones by index, those freed by one vertex in the order of its arcs; in acyclic graphs every arc leads forward. |
| SortOrder.OrderIsOne | core/classical_graph.go:135-200 | These conditions leave one order: two orders that meet them for the same lists of arcs are equal. |
| SortOrder.ListingIsFreeIff | core/classical_graph.go:135-200 | Every listing of the same arcs leads to the order exactly if no vertex of it frees two others. |
| Vegeta.OrderTransactions | test.go:1467-1482 | Every transaction with a context, exactly once: first the members of the key chains, in the order of their first occurrences, then the rest. |
| Vegeta.BuildDag | test.go:1489-1523 | A transaction's predecessors are exactly the earlier ones it conflicts with, in either direction. |
| Vegeta.ReadyBatch | test.go:1543-1562 | Exactly the remaining transactions whose predecessors are executed, in dictionary order. |
| Vegeta.BatchIsConflictFree | test.go:1543-1562 | No two transactions of a batch conflict. |
| Vegeta.SomethingReady | test.go:1543-1562 | The empty-batch exit is never taken while transactions remain. |
| Vegeta.PublishStep | test.go:1623-1631 | Publishing a matched run extends a genuine history that respects the order. |
| Vegeta.MatchTest | test.go:1597-1613 | The loops over real reads and writes report a match exactly if no key was read or written that was not predicted so. |
| Vegeta.JudgeOne | test.go:1595-1631 | One more worker's verdict, on the state after the publications it saw: failed, matched if its real reads and writes lie within the speculated ones, or mismatched. |
| Vegeta.StaySteady | test.go:1595-1631 | What a worker of the batch publishes changes nobody's verdict in it: who would pass on the batch's first state passes now, and the other way round. |
| Vegeta.ReplayBatch | test.go:1569-1645 | However the batch's workers interleave, each one's verdict is about what it did on the state after the publications it saw, none earlier than the batch's beginning, and who is matched is decided by the state the batch began with. |
| Vegeta.ReplayedIsSerial | test.go:1525-1645 | The committed state is the serial execution of the published transactions in the given order. |
| Vegeta.ReplayedPassesAgain | test.go:1595-1631 | In that serial execution every published transaction passes again, with the outcome it was published with. |
| Vegeta.MaximalIsByDepth | test.go:1543-1562 | If every batch takes all that is free, the batch of a transaction is the length of its longest chain of earlier conflicting ones. |
| Vegeta.NoBatchingIsShorter | test.go:1543-1562 | No batching that puts conflicting transactions in order puts a transaction earlier. |
| Vegeta.Replay | test.go:1525-1645 | All transactions are covered by pairwise disjoint conflict-free batches, each judged on a state of its own batch; a batch is exactly what no earlier one holds and whose earlier conflicting ones all lie in earlier batches, so its number is the longest chain of conflicts; a transaction is matched exactly if it passes on the state its batch began with; the final state is the serial execution of the matched ones in the given order, and in that execution each of them passes again. |
| Vegeta.SerialReplay | test.go:1650-1667 | The mismatched transactions run one at a time in dictionary order on what is committed by then; failing ones are skipped; the others are counted. |
| Vegeta.RunningDoNotFail | test.go:1650-1667 | In the serial execution of those that were kept nobody fails. |
| Vegeta.Process | test.go:1525-1667 | Replay and serial replay end to end: the committed state is one serial execution from the empty state in which nobody fails, the matched transactions in the given order and then the mismatched ones in dictionary order. |
| Tarjan.ComponentFound | graph/tarjanscc.go:88-132 | When a root is left with its own low value, what lies above it on the stack is exactly its mutual-reachability class. |
| Tarjan.CompleteKeeps | graph/tarjanscc.go:115-131 | Emitting that component keeps the search invariant. |
| Tarjan.StayKeeps | graph/tarjanscc.go:88-114 | Leaving a vertex that is not a root keeps it too. |
| Tarjan.FollowReturned | graph/tarjanscc.go:98-105 | Lowering by a child's value after its search keeps the low value exact enough. |
| Tarjan.FollowVisited | graph/tarjanscc.go:106-109 | Lowering by a stacked neighbour's discovery time does as well. |
| Tarjan.TarjanScc.SccUtil | graph/tarjanscc.go:88-132 | The recursive search visits everything reachable and emits whole components only. |
| Tarjan.TarjanScc.Run | graph/tarjanscc.go:65-86 | The components partition the vertices; two vertices share one exactly if each reaches the other; vertices are strictly increasing and membership is their characteristic vector. |
| Johnson.TailIsUnblocked | graph/johnsonce.go:100-143 | A vertex from which the start can still be reached off the stack is never blocked. |
| Johnson.FreeKeeps | graph/johnsonce.go:145-154 | Leaving a vertex with it and its waiters freed keeps the blocking invariant, given that everything blocked when it was entered still is, which `Unblock` guarantees. |
| Johnson.EnlistKeeps | graph/johnsonce.go:131-137 | Enlisting a dead end keeps it too. |
| Johnson.RotateIsCycle | graph/johnsonce.go:84-95 | A cycle written from any of its vertices is the same cycle. |
| Johnson.SearchFindsCycle | graph/johnsonce.go:81-143 | A cycle through the start, inside what may be explored, is recorded, written from the start. |
| Johnson.CycleSearch.Unblock | graph/johnsonce.go:145-154 | Frees the vertex and, recursively, all that wait on a freed one; of a guarded set, such as the stack with all that was blocked before, it frees nothing. |
| Johnson.CycleSearch.RecordCycle | graph/johnsonce.go:108-121 | The stack becomes a row; rows, column sums and total stay consistent. |
| Johnson.CycleSearch.Recur | graph/johnsonce.go:100-143 | Records only genuine repetition-free cycles that continue the stack inside the scope, and all of them; each once if no adjacency list repeats a vertex. |
| Johnson.CycleSearch.SearchAll | graph/johnsonce.go:84-95 | All cycles of the component are recorded, start vertex by start vertex, each under the first of its vertices. |
| Johnson.RowsAreOnce | graph/johnsonce.go:84-95 | If no adjacency list repeats a vertex, no two rows are the same cycle, whichever vertex they are written from. |
| Johnson.CycleSearch.FindCycles | graph/johnsonce.go:57-98 | A cycle of the component stands in the rows, written from one of its vertices, if and only if it has two or more vertices or the component has three or more; once, if no adjacency list repeats a vertex; and every row is a cycle of the component. |
| Johnson.LoneLoop | graph/johnsonce.go:57-63 | A failing input for the promise of all cycles: the self-arc of a one-vertex component has no row. |
| Johnson.PairLoop | graph/johnsonce.go:65-76 | Another: a self-arc in a two-vertex component has no row. |
| CycleBreaking.FlagIsNew | graph/johnsonce.go:162-172 | While the total is not zero the first maximum is the greedy choice: the first of the vertices on most recorded cycles without a flag, and there is such a cycle. |
| CycleBreaking.SumsAreCounts | graph/johnsonce.go:162-185 | The column sums count, for every vertex, the recorded cycles through it that have no flag yet. |
| CycleBreaking.FlagNext | graph/johnsonce.go:162-183 | One round flags the first of the vertices on most unbroken recorded cycles, so one that no flag hit before, and the total strictly falls. |
| CycleBreaking.PicksHitMore | graph/johnsonce.go:162-185 | Every pick hits a recorded cycle more, so there are no more flags than recorded cycles. |
| CycleBreaking.HitsExactlyRecorded | graph/johnsonce.go:156-186 | From the recorded cycles to all cycles of the component: which are hit, both ways. |
| CycleBreaking.AllHit | graph/johnsonce.go:162-185 | When the total is zero every recorded cycle has a flagged vertex. |
| CycleBreaking.FirstMax | graph/johnsonce.go:163-171 | The first index with the largest count. |
| CycleBreaking.SubtractRow | graph/johnsonce.go:176-180 | Takes a row out of the sums, keeping the total right. |
| CycleBreaking.WipeRows | graph/johnsonce.go:174-182 | Every row with the vertex is wiped, the sums stay consistent, and the total strictly falls if the vertex still counted. |
| CycleBreaking.JohnsonCE.BreakCycles | graph/johnsonce.go:156-186 | A cycle of the component is hit if and only if it has two or more vertices, or is a self-arc in a component of three or more, or is the self-arc of the first of two; flags stand on cycles of the component, and the counter grows by their number. |
| CycleBreaking.JohnsonCE.Run | graph/johnsonce.go:29-43 | The count equals the number of flagged vertices, each on a cycle; which cycles are hit is decided, both ways, by their length and the size of their component; without the flagged vertices no walk that moves returns to its start. |
| CycleBreaking.MustBreakIff | graph/johnsonce.go:29-43 | Which cycles are hit, stated by mutual reachability instead of by components: two or more vertices, or a self-arc on a vertex with two others in its component, or on the lesser of a pair. |
| CycleBreaking.CycleIsInComponent | graph/johnsonce.go:35-40 | Every cycle lies within one component. |
| CycleBreaking.ClosedWalkHasCycle | graph/johnsonce.go:29-43 | A closed walk that moves contains a cycle of two or more vertices. |
| CycleBreaking.WithoutPauses | graph/johnsonce.go:29-43 | Dropping the self-arcs of a walk leaves a walk with the same ends that moves at every step. |
| CycleBreaking.NothingLeft | graph/johnsonce.go:29-43 | When every cycle of two or more vertices is hit, what is left has no closed walk that moves. |
| ConflictGraph.BuildConflictGraph | core/classical_graph.go:364-405 | An arc from i to j exactly if i reads what j writes, or both write and i is first; each arc once. |
| ConflictGraph.NewBuildConflictGraph | core/classical_graph.go:408-455 | The indexed construction has exactly the same arcs. |
| ConflictGraph.IndexMeansShare | core/classical_graph.go:441-452 | Looking writers up in the index finds what the plain search finds. |
| ConflictGraph.SameArcs | core/classical_graph.go:364-455 | Both constructions define the same relation, in range and without self-arcs. |
| ConflictGraph.SurvivorsHaveNoCycle | graph/johnsonce.go:29-43 | The conflicts of the unflagged transactions have no cycle of any length. |

## Left out

- `buildLevels` of Depurge: it never pops key queues, and its result is discarded; level claims are made about `schedule`.
- `PushReady`, and `Prune`, `Execute` or `Abort` of a transaction that is not in flight: outside the protocol.
- The worker pools that drive Depurge: they call `Execute` before publishing, so the theorem is stated for publishing between pop and `Execute`.
- The construction of Vegeta's key chains before ordering: the chains are a parameter of `OrderTransactions`.
- Nezha.ApartMeansApartNodes: does not state a converse. A writer of a later address may or may not be moved onto another writer's number, depending on all numbers in that queue; the collision is proved at one block, and `SortFunction` determines the outcome for every other.
- Read safety of Nezha on cyclic address dependencies: not promised by the code; the acyclic form is proved.
- Node values, timestamps and contract names of `RWNode`: an address stands for the composite key, and a node is identified by transaction, address and kind.
- Johnson.CycleSearch.FindCycles: does not model that the exploration flags are the component's own membership slice, cleared as the search goes; the search works on a copy.
- `RebuildGraph`, `BasicTopologicalSort`, `RemoveCycles` and `GetAllCycles` of `core/classical_graph.go`, `graph/johnson_cycles.go`, `graph/tarjan.go`: not on the main path, or calls into libraries.
- 64-bit overflow of counters other than in-degrees: the number of vertices is assumed to fit.
- Contract execution, state databases, tries, LevelDB, LLM calls, caches, network, timing and printing: re-execution is an abstract function with a footprint.
- The vendored Ethereum code beyond the word conversion, and the cryptographic packages.
