# A verified model of the go-abey core

This project models, in Dafny, the parts of the go-abey node that hold the most state: the transaction pool, the chain
indexer, gas accounting with block packing and replay, event feeds, and the canonical chain, together with two smaller
pieces, the gas-limit controller and the derivation-path parser. It proves what each of them promises over all inputs,
all reachable states and all interleavings.

`dafny verify dfyconfig.toml` checks the whole project.

## How it is laid out

| file | what it holds |
|---|---|
| `Collections.dfy`, `Heap.dfy`, `Transactions.dfy` | options and set listing; the binary heap behind every priority queue; transactions and their costs |
| `TxItems.dfy`, `SortedMap.dfy` | nonce-indexed sets as values; the map, heap and cache that implement them |
| `AccountLists.dfy`, `TxLists.dfy` | one account's list as a value; the object that implements it |
| `PriceOrder.dfy`, `Priced.dfy` | which entries of the price heap come first; the lookup of all transactions and the lazily cleaned heap |
| `PoolConfig.dfy`, `PoolState.dfy`, `PoolBooks.dfy` | the pool's settings; the pool's books as values, and the moves that keep them balanced |
| `Exchange.dfy`, `Admissions.dfy`, `Promotion.dfy`, `Demotion.dfy`, `Leveling.dfy`, `Trimming.dfy` | what removal, admission, promotion, demotion and the limits do to the books |
| `Retention.dfy`, `Resets.dfy` | why transactions leave the pool, and which are there after additions and resets |
| `Shortfall.dfy` | a pool in which making room makes none |
| `Reinjection.dfy`, `HeadChange.dfy` | which transactions a change of head puts back, and the reset for two heads |
| `TxPool.dfy` | the pool itself |
| `Intrinsic.dfy`, `Execution.dfy`, `Processor.dfy` | intrinsic gas, one message, one block |
| `PackingRuns.dfy`, `Packing.dfy`, `BlockFilling.dfy` | runs of the packing rules, the packing loop, and a block filled from the pool |
| `Indexer.dfy`, `IndexerTree.dfy`, `IndexerBound.dfy`, `IndexerProgress.dfy`, `IndexerLimit.dfy` | one chain indexer, trees of them, the bound between parent and child, what gets done, and runs in which things go wrong |
| `Feed.dfy` | event delivery |
| `CanonicalChain.dfy`, `Ancestors.dfy` | the canonical index, its reorganisation, and ancestor search through it |
| `GasLimits.dfy`, `DerivationPaths.dfy` | the gas-limit controller; derivation paths |

Code that changes things in place is a class with a `Valid()` invariant, and its methods are proved against functions on
values. The laws are lemmas about those functions and contracts of those methods.

## Main results

- **Pool books.** Every pool operation, reset with reinjection included, keeps `TxPool.Valid()`: the lookup is exactly the
  disjoint union of the pending and the queued transactions, no account has a nonce in both families, no stored list is
  empty, every list's caps bound what it holds, and every pooled transaction has an entry in the price heap. It follows
  that removing by nonce removes the transaction meant (`TakePending`, `TakeQueued`) and that a demoted transaction is
  never refused by the queue (`SettleQueue`).
- **Pool nonces.** Every operation, and every reset with nothing to reinject, keeps each account's pending nonces equal to
  the interval from the head state's nonce up to the pool's next nonce, and leaves nothing executable in the queue of the
  accounts it promotes (`Waits`).
- **Pool limits.** The levelling of large accounts ends in exactly the state in which every account that is not local keeps
  its lowest `level` nonces, for the highest level that meets the limit or the guaranteed minimum; its running counter is
  the true total throughout.
- **Pool retention.** A transaction leaves the pool in an addition only if it is outbid or evicted to make room, and in a
  promotion only if it is outdated, unpayable or beyond its account's allowance, or a limit is exceeded. A reset that exceeds no limit keeps every transaction that is valid in the new state and
  pools, of those put back, exactly the valid ones whose place is free (`Resets.ResetExact`, `HeadChange.ChangeHead`).
- **Admission.** Validation admits exactly what meets twelve conditions, reports the first one that fails, and never admits
  a message that could lose its gas in any world (`Admissions.ValidateExact`, `FirstFaultReported`, `AdmittedLosesNoGas`).
- **Packing coverage.** If the gas lasts, every transaction on offer is tried, except those behind one of the same account
  that cannot be executed yet, and no other one is passed over (`PackingRuns.EveryOfferTried`, `NoneBehindStuck`,
  `BlockFilling.FillFromPool`).
- **Packing replays.** Whatever was skipped, refused or rolled back while a block was packed, a validator that processes
  the block on the parent's state accepts it with the packer's own state, receipts, gas and fees; gas used, gas left and
  gas lost add up at every point.
- **Indexer.** In every interleaving of head events, reorganisations and section processing, at every node of every tree of
  indexers, heads are stored for exactly the counted sections and each lies a section's length of parent links above the
  one before. A head makes known every complete and confirmed section, a section is stored exactly if its headers can be
  read in line and the backend commits, and then every child learns of it (`IndexerProgress`).
- **Feed.** A `Send` reaches every channel subscribed throughout exactly once, and one removed meanwhile at most once.
- **Canonical chain.** A reorganisation finds the highest common block and leaves an index that lists exactly the new
  head's ancestors; ancestor search answers exactly when the path is stored and the budget suffices.

## Where the code falls short of what one might expect

Each item comes with the exact condition and an instance.

- The cap shortcut of `txList.Filter` skips the check of separate payers. It gives what a full scan gives exactly when it is
  not taken or no separate payer is broke (`AccountLists.ShortcutExact`, `ShortcutKeepsBrokePayer`).
- Room is made in a full pool before it is known whether the newcomer is accepted. A refusal leaves the pool alone exactly
  when the newcomer is known, invalid, local or underpriced, or the pool is not full, or nothing in it is remote
  (`Admissions.RefusalExact`, `EvictionExample`).
- The price heap can hold a transaction twice, and making room counts entries. A full pool is below its limit afterwards
  exactly when it has as many remote entries as transactions have to go and no transaction has two among the first
  (`Exchange.RoomExact`, where a doubled transaction ties with no other; `Shortfall.ShortfallExample`).
- A change of head puts back exactly what the new branch misses if and only if the new head is not lower than the old one
  and at most 64 blocks higher, or the old head is one of its ancestors (`Reinjection.PutBackExact`, `LowerHeadForgets`,
  `HigherHeadForgets`).
- A message that fails after its gas was bought does not give that gas back to the pool (`Execution.GasLostExactly`,
  `LosesOne`), so in packing gas used and gas left add up to the limit exactly when no attempt lost gas
  (`PackingRuns.RunConserves`, `NothingWasted`). Transactions that a pool admits never lose any
  (`BlockFilling.AdmittedWasteNothing`).
- A reorganisation that ends inside a section while that section waits to be stored, and not at its last block, does not
  stop it from being stored (`Indexer.StaleSectionStored`, `IndexerLimit.StaleRun`).
- A child indexer can know of more blocks than its parent has stored when the parent's sections are single blocks and the
  child waits for no confirmations (`IndexerLimit.BoundFails`), or when a backend reset fails above a child that knows
  something (`IndexerBound.FailedResetExact`, `IndexerLimit.ResetBreaksBound`). In all other cases it cannot
  (`IndexerBound.RunWithin`).
- A reorganisation can leave blocks of the old branch listed above the new head (`CanonicalChain.ReorgConsistent`, for an
  index that ended at the old head `ReorgFromEnd`, `ShorterBranchStaysListed`). Ancestor search from such a block can land
  on the other branch (`Ancestors.StaleSearchExact`, `StaleAnswer`).
- Ancestor search for the zero hash can answer with a block although no block has that hash (`Ancestors.ZeroHashExact`,
  `ZeroHashAnswered`).

Three comments do not say what the code does. The one on the strategy of the gas limit says that it stays where it is when
exactly two thirds of it are used; the code then raises it by one, and the exact conditions for rising and falling are
those of `GasLimits.LimitFollowsUse` (instance: `TwoThirdsRises`). The one on the price check of `validateTx` says that only transactions that are
not local are dropped; the code drops local ones too, and so does the model. The one on `reset` says that the pool follows
the new head; the code takes the state and the gas limit of the chain's current block, so the model takes both as arguments.

## Model

| member | source | states |
|---|---|---|
| Heap.RootIsMinimal | core/tx_list.go:34-50 | In a heap for any strict weak order no element sorts before the root. |
| Heap.Up | core/tx_list.go:78 | Sifting up restores heap order from a single broken edge and permutes the elements. |
| Heap.Down | core/tx_list.go:91 | Sifting down mends every edge at or below the start except possibly the one above it, permutes, and leaves the slots beyond n alone. |
| Heap.Push | core/tx_list.go:78 | Heap order is kept and exactly one element is added. |
| Heap.Pop | core/tx_list.go:91 | Heap order is kept and a minimal element, and only it, leaves. |
| Heap.Remove | core/tx_list.go:162 | Removing any slot keeps heap order and takes exactly that element. |
| Heap.FixRoot | core/types/transaction.go:623 | Replacing the root keeps heap order and swaps exactly those two elements. |
| Heap.Init | core/tx_list.go:119 | Any slice becomes a heap of the same elements. |
| Heap.Sort | core/tx_list.go:136 | The result is sorted and a permutation. |
| SortedMap.TxSortedMap.constructor | core/tx_list.go:61-66 | A new map is empty, valid and has no cache. |
| SortedMap.TxSortedMap.Put | core/tx_list.go:75-81 | Exactly the entry under the nonce changes; the key heap holds each key once, in heap order; the cache is dropped. |
| SortedMap.TxSortedMap.Forward | core/tx_list.go:86-100 | Exactly the nonces below the threshold leave, listed in nonce order; a live cache is sliced and stays the sorted list of what is held. |
| SortedMap.TxSortedMap.Filter | core/tx_list.go:104-124 | Exactly the rejected transactions leave, each returned once; without a removal map, heap and cache stay as they were. |
| SortedMap.TxSortedMap.Cap | core/tx_list.go:128-149 | The lowest nonces stay, as many as the threshold; the rest is returned from the highest down; a live cache stays right after slicing. |
| SortedMap.TxSortedMap.DropAbove | core/tx_list.go:137-141 | Going down a sorted index drops exactly the transactions of rank at or above the threshold, in descending nonce order. |
| SortedMap.TxSortedMap.Remove | core/tx_list.go:153-170 | Reports whether the nonce was held, and removes exactly it from map and heap. |
| SortedMap.TxSortedMap.Ready | core/tx_list.go:179-194 | Takes, in nonce order, the whole run of consecutive nonces from the lowest one, unless that lies above the start. |
| SortedMap.TxSortedMap.Flatten | core/tx_list.go:204-217 | Returns and caches the strictly nonce-increasing list of exactly the held transactions. |
| SortedMap.FlattenItems | core/tx_list.go:204-217 | Builds that list from the map alone. |
| SortedMap.FlatteningUnique | core/tx_list.go:204-217 | There is one such list only, so a cached and a recomputed answer agree. |
| SortedMap.FlatteningSplit | core/tx_list.go:95-98 | Slicing the list at any point lists exactly the transactions on either side of it. |
| TxItems.CappedSize | core/tx_list.go:128-149 | Capping keeps as many transactions as the threshold says, or all if there are fewer. |
| TxItems.CappedDropsHighest | core/tx_pool.go:1132-1144 | Capping to one less drops exactly the highest nonce. |
| TxItems.ExecutableIsRun | core/tx_list.go:179-194 | What is ready is a gapless run from the lowest held nonce. |
| TxItems.ReadiedWaits | core/tx_list.go:179-194 | What is left behind lies beyond a gap. |
| AccountLists.BumpInPercent | core/tx_list.go:252-263 | A replacement is accepted exactly if it raises the price, and one unit more would raise it by more than the percentage; raising it by the percentage is enough. |
| AccountLists.AddKeepsCaps | core/tx_list.go:264-272 | Adding keeps the caps above what the sender has to afford and the gas of every held transaction. |
| AccountLists.FilterKeepsCaps | core/tx_list.go:291-329 | So does filtering, by the shortcut or by a scan. |
| AccountLists.ShortcutExact | core/tx_list.go:291-329 | The cap shortcut returns what a full scan returns if and only if it is not taken or no separate payer is broke. |
| AccountLists.ShortcutKeepsBrokePayer | core/tx_list.go:291-329 | A list on which the shortcut keeps what a full scan removes. |
| AccountLists.FilterPartitions | core/tx_list.go:299-329 | Kept, removed and invalidated transactions partition the list; a non-strict list invalidates none. |
| AccountLists.FilterKeepsPrefix | core/tx_list.go:316-328 | Filtering a gapless strict list leaves the gapless part below the lowest removed nonce. |
| TxLists.TxList.constructor | core/tx_list.go:233-239 | A new list is empty with zero caps. |
| TxLists.TxList.Add | core/tx_list.go:252-273 | Inserts unless a held transaction with the nonce is not outbid absolutely and by the percentage; returns the one replaced; keeps the caps bounding. |
| TxLists.TxList.Forward | core/tx_list.go:278-280 | Drops and returns in order exactly the nonces below the threshold. |
| TxLists.TxList.Filter | core/tx_list.go:291-329 | Over heap and cache it computes the filtering of the list as a value: same rest, same removed, same invalidated. |
| TxLists.TxList.Cap | core/tx_list.go:333-335 | Keeps the lowest nonces and returns the rest from the highest down. |
| TxLists.TxList.Remove | core/tx_list.go:340-351 | Removes the nonce and, in a strict list, returns exactly the transactions above it. |
| TxLists.TxList.Ready | core/tx_list.go:360-362 | Takes the executable run in nonce order. |
| TxLists.TxList.Flatten | core/tx_list.go:377-379 | The held transactions in strict nonce order. |
| Priced.TxPricedList.constructor | core/tx_list.go:421-426 | A new price heap is empty. |
| Priced.TxPricedList.Put | core/tx_list.go:429-431 | The transaction gets an entry and no entry is lost. |
| Priced.TxPricedList.Removed | core/tx_list.go:436-451 | No pooled transaction loses its entry; above a quarter of stale entries the heap is rebuilt to exactly the pooled transactions. |
| Priced.TxPricedList.Cap | core/tx_list.go:455-482 | Returns exactly the pooled non-local transactions below the threshold; all others keep an entry. |
| Priced.TxPricedList.Underpriced | core/tx_list.go:486-508 | True if and only if the sender is not local and the price is at most the least price over a non-empty pool; every entry of a pooled transaction stays. |
| Priced.TxPricedList.Discard | core/tx_list.go:512-535 | Names cheapest entries of pooled remote transactions, as many as wanted or all there are, and leaves every other entry of a pooled transaction in place. |
| Priced.EnterTwice | core/tx_list.go:429-451 | A transaction that leaves the pool and comes back can have two entries in the price heap. |
| Priced.DiscardsTwice | core/tx_list.go:512-535 | Asked for the two cheapest, a discard then names it twice and leaves the next dearer one. |
| PriceOrder.NamedTwiceNeeds | core/tx_list.go:512-535 | Two entries of a transaction are named only if they and all cheaper entries are within the number wanted. |
| PriceOrder.NamedTwiceSure | core/tx_list.go:512-535 | Two entries of a transaction are named whenever they and all other entries that are not dearer are within the number wanted. |
| PriceOrder.NamedExact | core/tx_list.go:512-535 | When as many transactions are named as entries wanted: always if there are as many entries and no second one can come in reach, never if there are fewer or one surely does; without ties of doubled transactions, exactly in the first case. |
| PriceOrder.CheapAndLateFirst | core/tx_list.go:388-398 | Nothing is named for eviction before all that is cheaper, or as cheap with a higher nonce. |
| PoolConfig.Sanitize | core/tx_pool.go:186-221 | Workable settings are kept, unworkable ones become the documented defaults, and all sanitised settings are workable. |
| Admissions.ValidateExact | core/tx_pool.go:620-698 | Admitted if and only if twelve conditions on the transaction and the head state hold: size, signs, block gas, sender, price, nonce, funds of sender and payer, intrinsic gas. |
| Admissions.FirstFaultReported | core/tx_pool.go:620-698 | For each kind of error: it is reported if and only if its condition fails and all conditions checked before hold. |
| Admissions.AdmittedLosesNoGas | core/tx_pool.go:688-697 | In no world does an admitted transaction lose gas: if it fails there, neither world nor gas pool change. |
| Admissions.AdmittedIsKept | core/tx_pool.go:620-698 | What validation admits is neither outdated nor unpayable by the standards of a later filtering in the same state. |
| TxPools.TxPool.constructor | core/tx_pool.go:263-283 | A new pool is valid, empty and nonce-contiguous, has no local accounts, and works by the sanitised settings. |
| TxPools.TxPool.EnqueueTx | core/tx_pool.go:790-813 | Queues unless a held transaction is not outbid; a replaced one leaves the lookup; no price entry is lost. |
| TxPools.TxPool.EnqueueAll | core/tx_pool.go:1018-1021 | Demoted transactions are all queued, none refused and none replacing another. |
| TxPools.TxPool.DropAll | core/tx_pool.go:1067-1073 | Transactions taken off their lists leave the lookup, and the books balance again. |
| TxPools.TxPool.RemoveTx | core/tx_pool.go:997-1036 | Exactly the given transaction leaves the pool; pending successors are queued; the next nonce drops to its nonce if it was above; a queued removal changes nothing else. |
| TxPools.TxPool.Unlist | core/tx_pool.go:1011-1027 | The pending part of a removal, from the moment the lookup has forgotten the transaction. |
| Exchange.TakePending | core/tx_pool.go:1011-1017 | Where the pending list holds the nonce of a pooled transaction, it holds that transaction, and removing the nonce leaves exactly its successors to be placed. |
| Exchange.TakeQueued | core/tx_pool.go:1029-1035 | Otherwise the queue holds it, and removing the nonce there removes it. |
| PoolBooks.SettleQueue | core/tx_pool.go:1018-1021 | A transaction in transit is accepted by the queue, whatever the percentage asked for replacements, and replaces nothing. |
| Exchange.RemovalKeepsRuns | core/tx_pool.go:1011-1035 | Removal keeps every account's pending nonces a run from the head state's nonce to the next nonce. |
| TxPools.TxPool.PromoteTx | core/tx_pool.go:831-864 | Appends unless not outbid; the outcome for lookup, list and next nonce in all cases. |
| TxPools.TxPool.PromoteRun | core/tx_pool.go:1074-1081 | A run taken off the queue joins the pending list whole, and the next nonce moves to its end. |
| TxPools.TxPool.PromoteReady | core/tx_pool.go:1074-1081 | Moves exactly the executable run behind the account's next nonce from queue to pending. |
| TxPools.TxPool.CutQueue | core/tx_pool.go:1058-1073 | Cutting a queue list takes exactly what it loses out of the pool. |
| TxPools.TxPool.CutPending | core/tx_pool.go:1223-1238 | Cutting a pending list takes exactly what it loses out of the pool. |
| TxPools.TxPool.PromoteAccount | core/tx_pool.go:1053-1096 | The full effect on one account: outdated and unpayable transactions dropped, the run promoted, the rest capped, an empty list deleted. |
| Promotion.PromotionKeepsRuns | core/tx_pool.go:1074-1081 | What is promoted continues the account's pending run without a gap. |
| Promotion.PromotionWaits | core/tx_pool.go:1074-1081 | Nothing executable stays in the queue. |
| Promotion.ScreenedExact | core/tx_pool.go:1058-1073 | Of a queue list exactly what is not outdated passes, and, unless the caps make judging unnecessary, what can be paid for. |
| Retention.PromotionSpares | core/tx_pool.go:1053-1096 | A queued transaction becomes pending, stays queued, is outdated or unpayable, or has as many lower nonces queued as its account may have transactions. |
| TxPools.TxPool.PromoteAccounts | core/tx_pool.go:1053-1096 | Pending transactions stay, newly pending ones were queued, queued ones leave only as stale or beyond the allowance, every processed non-local account is within its allowance, and runs stay runs. |
| TxPools.TxPool.DropHighest | core/tx_pool.go:1132-1144 | Exactly the highest nonce of the account is dropped and the next nonce follows. |
| TxPools.TxPool.Round | core/tx_pool.go:1131-1146 | One round takes one transaction from each offender and counts them. |
| TxPools.TxPool.ReduceTo | core/tx_pool.go:1125-1171 | Rounds end at the first level, not below the floor, that meets the limit. |
| TxPools.TxPool.EqualizePending | core/tx_pool.go:1102-1172 | Terminates with every non-local account cut to one common level of lowest nonces, at least AccountSlots, one more level being above the limit; total within GlobalSlots or level equal to AccountSlots; local accounts untouched; runs kept. |
| Leveling.LevelRound | core/tx_pool.go:1131-1146 | A round over exactly the accounts above a level brings them all down to it. |
| Leveling.LevelTotals | core/tx_pool.go:1130-1147 | One level up readmits exactly one transaction for each account above the level. |
| Leveling.OvershootBound | core/tx_pool.go:1130-1171 | Levelling overshoots the limit by less than the number of accounts it cut. |
| Leveling.PickNext | core/tx_pool.go:1119-1130 | Down to the size of the next largest account, the accounts above the level are exactly the offenders picked so far. |
| Leveling.Count | core/tx_pool.go:1102-1106 | The counter starts as the true total. |
| Leveling.PopLargest | core/tx_pool.go:1110-1122 | The account picked has the most transactions of those left. |
| TxPools.TxPool.RemoveQueued | core/tx_pool.go:1195-1210 | Removing listed queued transactions one by one removes exactly those, and touches nothing pending. |
| TxPools.TxPool.TrimQueue | core/tx_pool.go:1173-1212 | Above GlobalQueue it ends at exactly GlobalQueue, or with only local accounts queued; every account keeps its lowest nonces, local ones everything. |
| TxPools.TxPool.PromoteExecutables | core/tx_pool.go:1041-1213 | Valid and contiguous afterwards; a transaction leaves only if it was queued and is stale or beyond the allowance, or if it is remote and the pending limit was exceeded and its rank is at or above the level, or the queue limit was exceeded. Pending total within GlobalSlots or every non-local account within AccountSlots; processed non-local queues within AccountQueue; queued total within GlobalQueue or only local; nothing executable waits. |
| Retention.LimitsSpare | core/tx_pool.go:1100-1212 | Levelling and trimming take nothing out of the pool that is local, and nothing at all where the limit is not exceeded. |
| Retention.PoolCounts | core/tx_pool.go:559-569 | The lookup has as many transactions as are pending and queued together. |
| TxPools.TxPool.DemoteAccount | core/tx_pool.go:1218-1257 | The account keeps exactly its payable part from the head state's nonce on; the lost ones leave the pool and the others are queued. |
| TxPools.TxPool.DemoteUnexecutables | core/tx_pool.go:1218-1258 | The same on every account, with the exact set of transactions that leave the pool. |
| Demotion.LostExact | core/tx_pool.go:1221-1240 | What is lost is exactly what is outdated, and, unless the caps make judging unnecessary, what cannot be paid for. |
| Demotion.SurvivingExact | core/tx_pool.go:1218-1257 | What survives of a gapless list is exactly what lies from the head state's nonce up to the first transaction that cannot be paid for, and nothing if the list does not reach down to that nonce. |
| Demotion.SurvivingIsRun | core/tx_pool.go:1218-1257 | A gapless pending list survives as a run that starts at the head state's nonce. |
| TxPools.TxPool.NotePending | core/tx_pool.go:488-492 | Every pending account's next nonce becomes one past its highest. |
| Demotion.DemotedContiguous | core/tx_pool.go:481-492 | Demotion followed by noting re-establishes contiguity in the new head state. |
| Demotion.NextNonceIsCount | core/state/managed_state.go:88-109 | The next nonce exceeds the head state's by the number of pending transactions. |
| TxPools.TxPool.RemoveAll | core/tx_pool.go:534-536 | Removes exactly the given transactions although their price entries are gone already; each account keeps pending exactly what lies below the lowest of its pending ones among them. |
| TxPools.TxPool.SetGasPrice | core/tx_pool.go:529-538 | Afterwards exactly the local and the sufficiently priced transactions are pooled, and pending is what lies below the lowest one dropped of each account. |
| Exchange.EvictOne | core/tx_pool.go:997-1036 | One more removal, from either family, keeps pending exactly what lies below the lowest of each account's pending transactions removed so far. |
| Exchange.RoomFrom | core/tx_pool.go:734-742 | Removing the transactions named makes room: who leaves, and the effect on all lists. |
| Exchange.RoomExact | core/tx_pool.go:721-742 | Whether the pool is below its limit afterwards, from the entries of its remote transactions before: bounds in both directions for all pools, and an if-and-only-if without ties of doubled transactions. If there are no more entries than wanted, only local transactions are left. |
| Shortfall.StaysFull | core/tx_pool.go:721-742 | A pool of four remote transactions where three are too many, the cheapest with two entries, keeps three. |
| Shortfall.ShortfallExample | core/tx_pool.go:721-742 | The same for four concrete transactions in a pool whose books are balanced, with the pool that is left. |
| TxPools.StillFull | core/tx_pool.go:721-742 | The same of the pool itself when room is asked for. |
| TxPools.TxPool.TakeCheapest | core/tx_pool.go:734 | Names the cheapest entries of remote transactions, as many as wanted or all. |
| TxPools.TxPool.MakeRoom | core/tx_pool.go:721-745 | Refuses exactly if a full pool holds nothing cheaper and the sender is not local; otherwise exactly those transactions leave a full pool whose entries are named when as many as have to go are asked for, with the effect on all lists. It is below its limit afterwards if there are as many remote entries and no transaction has two within reach, and, without ties of doubled transactions, only then. |
| TxPools.TxPool.Add | core/tx_pool.go:708-785 | The whole effect in every case: known, invalid and underpriced transactions change nothing; others are placed in the pool as it was, or, if they are remote and it was full, in the pool without the transactions whose entries were named to make room. Admitted if and only if newly pooled; a refusal after making room leaves that pool; runs kept. |
| Admissions.RefusalExact | core/tx_pool.go:708-800 | A refusal leaves the pool alone if and only if the transaction is known, invalid, local or underpriced, or the pool is not full, or nothing in it is remote. |
| Admissions.EvictsThenRefuses | core/tx_pool.go:721-754 | A full pool of two: the cheaper one is evicted for a transaction that is then refused. |
| Admissions.EvictionExample | core/tx_pool.go:721-754 | The same for two concrete transactions in a pool whose books are balanced and whose nonces are contiguous, with the pool that is left. |
| TxPools.TxPool.Place | core/tx_pool.go:746-784 | Replaces the pending or queued transaction with its nonce if it outbids it, queues it under a free nonce, or changes nothing. |
| TxPools.TxPool.ReplaceListed | core/tx_pool.go:755-762 | The replaced transaction leaves lookup and list, the new one enters both and the price heap. |
| Exchange.ReplacePending | core/tx_pool.go:746-771 | Replacing a pending transaction keeps the books and the runs. |
| TxPools.TxPool.AddTx | core/tx_pool.go:913-927 | The effect of an admission, and after it, if the transaction took nobody's place, a promotion on its sender: nothing leaves without one of the reasons of a promotion, nothing executable waits there, and all limits hold. |
| TxPools.TxPool.AddTxs | core/tx_pool.go:946-967 | Each transaction of a batch has the effect of an admission on the pool that the ones before it left; one promotion follows for all senders that got something new, with its reasons for leaving and all limits, and none if there is none. |
| Resets.AdditionExact | core/tx_pool.go:708-785 | Where there is room and its place is free, a new transaction is pooled if and only if it is valid. |
| Resets.AddedStays | core/tx_pool.go:913-927 | The same after the promotion that follows, within the limits. |
| Resets.BatchExact | core/tx_pool.go:946-967 | Where there is room for each, after a batch exactly what was pooled before and the valid ones of the batch are pooled, among those whose place no other one takes. |
| TxPools.TxPool.Pending | core/tx_pool.go:591-600 | Every account's pending transactions, none forgotten, in strict nonce order. |
| TxPools.TxPool.EvictAccount | core/tx_pool.go:374-388 | Exactly the queued transactions of a non-local account leave. |
| TxPools.TxPool.Reset | core/tx_pool.go:414-496 | Nothing happens where the branches are broken or the state is missing. Otherwise the pool goes through the stages of a reset: each transaction to reinject is admitted or refused under the new state in turn, a promotion follows if something new was queued, exactly the lost transactions are demoted out of the pool, and a last promotion takes out nothing without a reason. All limits hold for all accounts, and with nothing to reinject, contiguity carries over to the new head state and nothing executable waits. |
| TxPools.TxPool.Revise | core/tx_pool.go:482-495 | The stages after reinjection: the exact demotion, the noting of next nonces, and the promotion, with all limits. |
| Resets.ResetExact | core/tx_pool.go:414-496 | A reset in which no limit is exceeded keeps every pooled transaction that is not stale, and of those reinjected pools one if and only if it is valid, among all whose place no other one takes. |
| Resets.FewStayWithin | core/tx_pool.go:414-496 | No limit is exceeded if the pool and what is reinjected together are within each of them. |
| Reinjection.Collect | core/tx_pool.go:414-461 | Where two branches are compared, exactly the transactions of the old branch above the highest common block that the new one lacks are put back, and none if the branches do not meet; otherwise the list is empty. |
| Reinjection.TxDifference | core/types/transaction.go:528-543 | The transactions of one list that are not in the other, in order. |
| Reinjection.LowerHeadForgets | core/tx_pool.go:414-418 | A lower new head puts nothing back, here not the transaction of an abandoned block. |
| Reinjection.HigherHeadForgets | core/tx_pool.go:418-424 | A head more than 64 blocks higher puts nothing back either, for every such height. |
| Reinjection.PutBackExact | core/tx_pool.go:414-461 | For heads that meet: whatever the blocks hold, exactly what the new branch misses is put back if and only if the heads are compared or the old one is an ancestor of the new one. |
| HeadChange.ChangeHead | core/tx_pool.go:414-496 | The whole reset for two heads: exactly what the new branch misses of a compared old one goes through the stages of a reset; where no limit is exceeded, all that is not stale stays and a missing transaction with a free place is pooled if and only if it is valid; all limits hold; broken branches or a missing state change nothing; heads that are not compared keep contiguity. |
| Intrinsic.IntrinsicGas | core/state_transition.go:118-148 | The 64-bit computation gives the true price of data and call, and reports an overflow if and only if that does not fit. |
| Intrinsic.CostByByte | core/state_transition.go:118-148 | 21000 for a call and 53000 for a creation, and for each byte 4 if it is zero and 68 if not. |
| Execution.GasPool.constructor | core/state_processor.go:67-78 | A new pool holds the given gas. |
| Execution.GasPool.AddGas | core/gaspool.go:29-35 | Adds, or refuses, where the original panics, exactly when 64 bits would overflow. |
| Execution.GasPool.SubGas | core/gaspool.go:39-45 | Subtracts, or refuses exactly when there is too little. |
| Execution.StateTransition.constructor | core/state_transition.go:151-164 | A new transition has bought no gas. |
| Execution.StateTransition.BuyGas | core/state_transition.go:191-219 | Fails without effect exactly on too low a balance of the buyer or too little gas in the pool; otherwise charges the buyer, payer or sender, for the whole limit. |
| Execution.StateTransition.PreCheck | core/state_transition.go:221-236 | Which error for which nonce, where it is checked, and balance, and no effect on failure. |
| Execution.StateTransition.UseGas | core/state_transition.go:182-189 | Takes gas if and only if there is enough. |
| Execution.StateTransition.RefundGas | core/state_transition.go:279-297 | What is added to the gas left is the refund counter or half the consumption, whichever is less; buyer and pool get the rest back and the pool does not overflow. |
| Execution.StateTransition.TransitionDb | core/state_transition.go:241-277 | Step by step it computes the transition function, with or without the nonce check, on success and on every failure. |
| Execution.DoneExact | core/state_transition.go:191-265 | A message comes through if and only if the nonce matches, the buyer can pay, the pool has the gas, and the gas covers an intrinsic cost of 64 bits. |
| Execution.FirstErrorReported | core/state_transition.go:191-265 | Otherwise which error it reports, in the order of the checks, and what is left of the pool. |
| Execution.OnlyGasChangesHands | core/state_transition.go:191-302 | The machine starts from a world in which only the buyer's balance and a caller's nonce have changed; afterwards only the buyer is paid back, and failure flag and logs are the machine's. |
| Execution.RefundExact | core/state_transition.go:279-302 | The gas used falls short of the gas consumed by the refund counter, or by half the consumption where the counter is more. |
| Execution.NoRefund | core/state_transition.go:279-302 | With an empty counter all that was consumed is used. |
| Execution.GasConserved | core/state_transition.go:241-302 | A successful message takes from the pool exactly what it used, which is within its limit and between half and all of what it consumed. |
| Execution.FailureKeepsGas | core/state_transition.go:241-277 | A message that fails after buying its gas loses all of it; one that fails earlier changes nothing. |
| Execution.GasLostExactly | core/state_transition.go:191-277 | A failure takes gas from the pool if and only if the nonce matches, the buyer can pay for a positive amount that the pool has, and the intrinsic cost is above it; it then takes all that was bought. |
| Execution.LosesOne | core/state_transition.go:241-277 | A concrete message that buys one unit of gas, fails and does not give it back. |
| Execution.PoolMonotone | core/state_transition.go:241-277 | More gas in the pool changes nothing about a message that succeeds. |
| Execution.BuyerPaysForUsedGas | core/state_transition.go:191-297 | The buyer pays for exactly the gas used, as far as the virtual machine leaves the buyer's balance alone. |
| Processor.ApplyTransaction | core/state_processor.go:107-162 | World, pool, totals and receipt become what the step function says; gas used and left stay within 64 bits. |
| Processor.Process | core/state_processor.go:67-101 | A block is accepted with the replayed world, receipts, gas and fees, or refused with the first failing transaction's error. |
| Processor.ReplayStuck | core/state_processor.go:79-91 | A block with an invalid prefix is invalid for the same reason. |
| Processor.ReplayConserves | core/state_processor.go:79-91 | In an accepted block the receipts' gas sums to what left the pool, and each cumulative value is the sum up to its receipt. |
| Processor.FeesAddUp | core/state_processor.go:136-141 | The fees of an accepted block are the sum, over its receipts, of gas used times price and the fee carried. |
| Processor.BlockExact | core/state_processor.go:79-131 | A block is accepted if and only if each transaction has a good signature, a sender that is not barred, the right nonce, paid gas within the pool, and enough of it, in the session that those before it left. |
| Processor.BlockRuns | core/state_processor.go:107-162 | Each transaction runs in the finalised world that those before it left, and its receipt has the machine's verdict and logs. |
| Processor.SetReceiptsData | core/blockchain.go:911-954 | Fills in, in place, place, transaction and gas of every receipt, or refuses without effect when the counts differ. |
| Processor.ReceiptsRecovered | core/blockchain.go:911-954 | From what is stored of a processed block's receipts, exactly those receipts come back. |
| Packing.TakeFirsts | core/types/transaction.go:589-599 | Ranging over the lists while moving those kept under a foreign address, in any order, it terminates, fails only on an empty list, and takes exactly the first transaction of each list where all are under their own address. |
| Packing.NewSource | core/types/transaction.go:588-608 | For any lists, a price heap of the transactions taken; where all lists are under their own address, of exactly their first ones. |
| Packing.PriceAndNonceSource.Peek | core/types/transaction.go:611-616 | A head of the highest price, if there is one. |
| Packing.PriceAndNonceSource.Shift | core/types/transaction.go:619-627 | The best head gives way to its account's next transaction, or leaves. |
| Packing.PriceAndNonceSource.Pop | core/types/transaction.go:632-634 | The best head leaves and its account is given up. |
| Packing.PackStep | abey/pbft_agent.go:1346-1356 | A transaction that the packer takes is taken by a replay, with the same effect, although the replay has more gas. |
| Packing.DropKeepsReplay | abey/pbft_agent.go:1346-1356 | A refused transaction keeps what is packed replayable. |
| Packing.GasWithinLimit | abey/pbft_agent.go:1267-1344 | In a block that replays, gas used is the receipts' sum, and with the gas left never exceeds the limit. |
| PackingRuns.AttemptConserves | abey/pbft_agent.go:1346-1356 | One attempt moves gas from the pool to the gas used, except for what a failing message bought and lost. |
| PackingRuns.RunConserves | abey/pbft_agent.go:1267-1356 | Over any run of the packing rules gas used, gas left and gas lost add up to what there was. |
| PackingRuns.NothingWasted | abey/pbft_agent.go:1267-1356 | Nothing is lost if and only if no attempt was made with a message that loses its gas. |
| PackingRuns.StuckExact | abey/pbft_agent.go:1296-1323 | The loop gives an account up if and only if its transaction has a good signature and an allowed sender and either its nonce is too high, or it is the next one, can be paid for, and needs more gas than the pool has. |
| PackingRuns.OffersMove | abey/pbft_agent.go:1296-1323 | An attempt takes its transaction off the heads, and puts the account's next one there unless it was stuck. |
| PackingRuns.EveryOfferTried | abey/pbft_agent.go:1267-1323 | A run that ends for want of offers has tried every transaction on offer, except behind a stuck one of the same account with a lower nonce. |
| PackingRuns.NoneBehindStuck | abey/pbft_agent.go:1267-1323 | After a stuck transaction no other one of its account is tried. |
| PackingRuns.CurrentTried | abey/pbft_agent.go:1302-1305 | However many outdated transactions come before it, the one with the account's next nonce is tried. |
| Packing.OffersInOrder | core/types/transaction.go:588-608 | From lists that are their accounts' own and in nonce order, heads and tails are in order: one head per account, the rest behind it. |
| Packing.AgentWork.constructor | abey/pbft_agent.go:1254-1270 | A new block is empty and replays. |
| Packing.AgentWork.CommitTransaction | abey/pbft_agent.go:1346-1356 | Success appends transaction and receipt; failure restores the state but not the gas pool. |
| Packing.AgentWork.TryHead | abey/pbft_agent.go:1278-1323 | One round of the loop is one attempt of the packing rules; the account's next transaction takes the place of the head unless the head was stuck; fewer transactions remain on offer. |
| Packing.AgentWork.CommitTransactions | abey/pbft_agent.go:1267-1344 | The attempts form a run of the packing rules, always on a dearest head, until too little gas or no offer is left; if the gas lasts, every transaction on offer was tried or is behind a stuck one, and after a stuck one none of its account is tried; what is packed replays; gas used and left add up to what there was if and only if no attempt lost gas. |
| Packing.PackOffers | abey/pbft_agent.go:982-983 | The same from the lists of offers themselves. |
| BlockFilling.FillFromPool | abey/pbft_agent.go:978-983 | The same from a pool: if the gas lasts, every pending transaction was tried or is behind a stuck one, and the block replays. |
| BlockFilling.AdmittedWasteNothing | abey/pbft_agent.go:978-983 | Packing only what pools admitted, in whatever states, gas used and gas left add up to what there was. |
| Packing.ValidatePacked | core/state_processor.go:67-101 | A validator that processes a packed block on the parent's state accepts it with the packer's own results. |
| Indexer.ChainIndexer.constructor | core/chain_indexer.go:102-123 | An indexer starts on the stored heads and count, with nothing known. |
| Indexer.ChainIndexer.SetValidSections | core/chain_indexer.go:465-477 | The loop removes exactly the heads at or beyond the count, which becomes persistent. |
| Indexer.ChainIndexer.NewHead | core/chain_indexer.go:251-308 | A head makes known every section that is complete and confirmed, and no other; a reorganisation leaves exactly the known and stored sections that lie below its block; children are told exactly when the cascaded head falls. |
| Indexer.ChainIndexer.BeginUpdate | core/chain_indexer.go:325-344 | Takes the next section and the head below it when one is known. |
| Indexer.ChainIndexer.FinishUpdate | core/chain_indexer.go:355-375 | Stores the section exactly if the head below it is still the one it started from; otherwise, and after a failure, nothing is known beyond what is stored. |
| Indexer.ExtendedExact | core/chain_indexer.go:284-307 | After a head, the sections known are those known before or all that are complete and confirmed, and nothing else changes. |
| Indexer.RevertedExact | core/chain_indexer.go:255-282 | After a reorganisation as many sections as lie below its block stay known and stored, with their heads, and the cascaded head falls to the end of those. |
| Indexer.FinishedExact | core/chain_indexer.go:355-375 | A failed or overtaken section is given up, with known back at stored; any other one is stored with its head, and the cascaded head becomes its last block. |
| IndexerProgress.ChildrenCatchUp | core/chain_indexer.go:366-370 | After an announced section each child knows every section of its own that is complete and confirmed within its parent's stored blocks, and no other that it did not know. |
| IndexerProgress.AdoptedCatchesUp | core/chain_indexer.go:437-453 | So does a new child, within what its parent has both stored and known. |
| IndexerProgress.ChildrenKeep | core/chain_indexer.go:275-281 | A cascading reorganisation takes nothing from a child that lies a section of its parent's below the block it goes back to. |
| IndexerProgress.FedExact | core/chain_indexer.go:404-420 | The section loop gets through its headers if and only if all are there, processed and in line. |
| IndexerProgress.UpdateExact | core/chain_indexer.go:325-424 | An update stores the next known section if and only if its headers can be read in line and the backend commits, and gives up all unstored ones otherwise. |
| IndexerProgress.AllGetStored | core/chain_indexer.go:325-424 | If all headers can be read in line, as many updates as sections are missing store all that is known. |
| Indexer.ExtendedKeeps | core/chain_indexer.go:284-307 | A new head keeps the invariant. |
| Indexer.RevertedKeeps | core/chain_indexer.go:255-282 | A reorganisation keeps the invariant, in the middle of processing too. |
| Indexer.BegunKeeps | core/chain_indexer.go:325-344 | Taking a section keeps the invariant. |
| Indexer.AdvancedKeeps | core/chain_indexer.go:394-424 | Each header read keeps the processed part linked to the head below. |
| Indexer.ResetFailedKeeps | core/chain_indexer.go:398-402 | A failed backend reset keeps the invariant. |
| Indexer.StillFollowsMeans | core/chain_indexer.go:357-360 | Whatever happened meanwhile, a section is stored only right above the last stored one. |
| Indexer.FinishedKeeps | core/chain_indexer.go:355-375 | Storing or giving up keeps the invariant. |
| Indexer.RestartKeeps | core/chain_indexer.go:455-462 | Whatever it was doing when it stopped, an indexer starts again with the invariant. |
| Indexer.StaleSectionStored | core/chain_indexer.go:355-375 | A reorganisation between processing and storing leaves stored sections that reach beyond the blocks it kept if and only if it ends inside the section being stored and not at its last block. |
| IndexerTree.RunOk | core/chain_indexer.go:251-453 | In every run of every tree, heads are stored for exactly the counted sections, the persistent count agrees, and each head is a section's length of parent links above the last. |
| IndexerTree.RevertOk | core/chain_indexer.go:255-282 | A cascading reorganisation keeps that at every level. |
| IndexerTree.ActAtOk | core/chain_indexer.go:312-453 | So does any step of any indexer's update loop, and adopting a child. |
| IndexerBound.RunWithin | core/chain_indexer.go:251-453 | In every harmless run no child knows of more blocks than its parent has stored, at every level and across reorganisations. |
| IndexerBound.RevertBounded | core/chain_indexer.go:255-282 | A reorganisation keeps the bound at every level. |
| IndexerBound.FinishBounded | core/chain_indexer.go:355-374 | Announcing a stored section keeps the bound. |
| IndexerBound.AdoptBounded | core/chain_indexer.go:437-453 | Adopting a child keeps the bound. |
| IndexerBound.FailedResetExact | core/chain_indexer.go:398-402 | A failed reset keeps the bound if and only if no child knows of any section. |
| IndexerLimit.BoundFails | core/chain_indexer.go:255-282 | For one-block parent sections and a child without confirmations, a run that breaks the bound, for every section size of the child. |
| IndexerLimit.StaleRun | core/chain_indexer.go:312-424 | From a fresh indexer, for every section size and every reorganisation point below the last block of the first section, a run that stores the section all the same. |
| IndexerLimit.ResetBreaksBound | core/chain_indexer.go:398-402 | From a fresh indexer, for every section size, a run whose last event is a failed reset and breaks the bound, after events that were all harmless given sections of more than one block. |
| Feeds.Find | event/feed.go:305-312 | The first case of the channel, or minus one exactly if there is none. |
| Feeds.DeactivateServes | event/feed.go:320-324 | Deactivating moves exactly one channel from the active to the served ones and loses nobody. |
| Feeds.DeleteActive | event/feed.go:315-317 | Deleting an active case takes exactly its channel off the active ones. |
| Feeds.DeleteServed | event/feed.go:315-317 | Deleting a served case takes exactly its channel off the served ones. |
| Feeds.Feed.constructor | event/feed.go:61-66 | A new feed has only the removal case. |
| Feeds.Feed.Subscribe | event/feed.go:73-93 | Adds one subscription, which waits in the inbox. |
| Feeds.Feed.Remove | event/feed.go:130-151 | Cancels exactly one subscription of the channel, in the inbox first. |
| Feeds.Feed.Send | event/feed.go:155-216 | The count is the number of deliveries, all of the given value; who stays subscribed and who was removed are the subscribers at the start; everybody who stays got it as often as subscribed, those removed at most as often; the removal case is back at index zero. |
| Feeds.Feed.TryAll | event/feed.go:182-191 | The fast path serves any channels that are ready and keeps the books. |
| CanonicalChain.BlockChain.constructor | core/blockchain.go:566-584 | A chain of the genesis block alone is canonical. |
| CanonicalChain.BlockChain.Insert | core/blockchain.go:647-665 | The block becomes the head and the entry under its number; the fallback state is left exactly when it is not below the last block. |
| CanonicalChain.BlockChain.Descend | core/blockchain.go:1542-1556 | Collects exactly the blocks above the level, or finds the missing link. |
| CanonicalChain.BlockChain.FindCommon | core/blockchain.go:1542-1585 | Ends at the highest block both branches share with exactly the blocks above it on either side, or fails exactly if they share none. |
| CanonicalChain.BlockChain.Reorg | core/blockchain.go:1514-1608 | Succeeds if and only if the branches meet; afterwards the index lists exactly the new head's ancestors, and is untouched at and below the meeting point and above the new head. |
| CanonicalChain.BlockChain.WriteBlock | core/blockchain.go:1073-1184 | A written block becomes the canonical head, extending or reorganising, or nothing canonical changes; nothing listed above it changes. |
| CanonicalChain.ReorgConsistent | core/blockchain.go:1514-1608 | After any reorganisation the whole index is consistent if and only if what was listed above the new head's number before is in order on top of the new head. |
| CanonicalChain.ReorgFromEnd | core/blockchain.go:1514-1608 | From an index that ends at the old head, that is if and only if the new head is at least as high or is one of its ancestors. |
| CanonicalChain.StaleJump | core/blockchain.go:1514-1608 | Afterwards the index still lists the old branch's block exactly outside the stretch that was rewritten. |
| CanonicalChain.ShorterBranchStaysListed | core/blockchain.go:1073-1184 | Writing two blocks and then a competitor of the first leaves an index that is not consistent. |
| CanonicalChain.CanonicalIsConsistent | core/blockchain.go:647-665 | An index that lists a head's ancestors and ends at the head is consistent. |
| Ancestors.HeaderChain.GetHeader | core/headerchain.go:373-385 | Found if and only if cached under the hash, or stored under hash and number; the cache only ever holds stored headers. |
| Ancestors.HeaderChain.GetAncestor | core/headerchain.go:339-369 | On any index, cache and arguments the loop computes the search. Where the index is in order up to the number asked about, and that is the block's, it answers if and only if the path is stored and the steps off the canonical chain are within the budget, with the block reached by following parent hashes. |
| Ancestors.SoughtExact | core/headerchain.go:339-369 | The same of the search as a function, and that it spends exactly the steps off the canonical chain. |
| Ancestors.ZeroHashExact | core/headerchain.go:351-355 | The zero hash is answered for if and only if the number is not listed and the one below it is. |
| Ancestors.ZeroHashAnswered | core/headerchain.go:351-355 | A chain of two blocks and arguments for which it is. |
| Ancestors.StaleSearchExact | core/headerchain.go:351-355 | Asked about a block still listed above a lower head, the search gives its ancestor if and only if that lies outside the rewritten stretch. |
| Ancestors.StaleAnswer | core/headerchain.go:351-355 | A chain of five blocks and arguments for which it gives a block of the other branch. |
| Ancestors.IndexIsAncestor | core/headerchain.go:352-355 | Where the index is in order, going down it is following parents. |
| GasLimits.LimitApproaches | core/block_validator.go:155-189 | One block brings the limit into the band or closer by a whole decay on the same side, and never out of it. |
| GasLimits.LimitFollowsUse | core/block_validator.go:155-176 | Inside the band, the exact next limit, and when it rises and falls with the gas used. |
| GasLimits.TwoThirdsRises | core/block_validator.go:162-170 | At exactly two thirds of a limit in full hundreds it rises by one. |
| GasLimits.LimitMonotone | core/block_validator.go:155-189 | It never falls for more gas used. |
| GasLimits.LimitSettles | core/block_validator.go:155-189 | Over any gas usage the distance to the band shrinks with every block until it is zero, and stays zero. |
| GasLimits.ProposedIsAccepted | consensus/minerva/consensus.go:398-416 | After any acceptable parent the proposed limit overflows nothing and passes the rule by which others check it. |
| GasLimits.ChainSettles | core/block_validator.go:155-189 | A chain whose blocks stay within their limits never overflows and settles in the band. |
| DerivationPaths.ParseDerivationPath | accounts/hd.go:67-117 | The loop computes the parse: prefix cases, root path for relative paths, first failing component's error. |
| DerivationPaths.String | accounts/hd.go:121-135 | The loop prints the components in order, hardened ones with an apostrophe. |
| DerivationPaths.DecimalRoundTrip | accounts/hd.go:98-101 | A number printed in decimal is read back as itself, whatever the prefix rules. |
| DerivationPaths.ComponentRoundTrip | accounts/hd.go:88-112 | Every 32-bit component, hardened or not, is read back from its printed form. |
| DerivationPaths.PathRoundTrip | accounts/hd.go:67-135 | Parsing the printed form returns the path for every non-empty path, and rejects exactly the empty one. |
| DerivationPaths.PrintIsCanonical | accounts/hd.go:67-135 | Whatever spelling a path was parsed from, its printed form parses to the same path. |
| DerivationPaths.RelativeRoundTrip | accounts/hd.go:74-87 | Without its leading "m/" a printed path parses to the default root followed by the path. |
| DerivationPaths.PrefixedRoundTrip | accounts/hd.go:98-101 | Numbers in hexadecimal, octal and binary spelling are read in the base that the prefix names. |
| DerivationPaths.ComponentRange | accounts/hd.go:88-112 | A decimal component is taken exactly up to the largest index of its kind, and refused with its value and that bound otherwise. |
| DerivationPaths.SpaceAround | accounts/hd.go:89-96 | White space around a component changes nothing. |
| DerivationPaths.FirstFailureReported | accounts/hd.go:88-116 | Components parse to their values in order, or to the failure of the first one that has any. |
| DerivationPaths.LeadingSlash | accounts/hd.go:72-79 | A path whose first component is blank is ambiguous. |

## Left out

- The pool stores account lists as values; that the list object computes those values is proved separately (`TxLists`), so two names for one list object are not modelled.
- Hashes are taken to be free of collisions: the lookup is a set of transactions, and block and header stores are keyed by hash.
- Nonces are unbounded; `Demotion.NextNonceIsCount` gives the sum that has to fit in 64 bits.
- Leveling.PopLargest: picks any account with the most transactions, where the original asks a priority queue with 32-bit float priorities; the order among equals and rounding of very large sizes are not modelled.
- The order of eviction by heartbeat appears as an arbitrary order.
- Journal, metrics, event notifications, tickers, locks and the pool's background loops.
- TxPools.TxPool.Reset: nonce contiguity is stated for resets with nothing to reinject, because reinjection precedes demotion and may be accepted in part.
- Reinjection.Collect: requires that the blocks of two heads that are compared are stored; the original crashes where they are not.
- Exchange.RoomExact: with a doubled transaction that ties with another in price and nonce, only the bounds in both directions are stated, because which of the two the heap names first is not part of its contract.
- The virtual machine is any deterministic function that leaves no more gas than it gets, and the state database is a value that is copied and restored; tries, logs' contents, blooms and block hashes of receipts are not modelled.
- Execution.StateTransition.RefundGas: requires that pool and bought gas fit in 64 bits, which the block gas limit guarantees; `Processor.ApplyTransaction` shows that it is kept.
- Signature recovery is a predicate on transactions.
- The recommitting of a header's gas fields and the logs of packed transactions.
- Indexer.ChainIndexer.NewHead: does not model checkpoints and light mode, which add cases without stored sections behind them; throttling is left out too, and writing the count and removing heads is one step.
- `Feed.SendSync`, the run-time type check of channels, and the fairness of the select statement.
- Feeds.Feed.Remove: requires a present subscription, because a subscription removes itself only once.
- Transaction lookup entries, deleted logs, receipts and chain events of a reorganisation, and the mixed transaction-hash lookup deletion.
- CanonicalChain.BlockChain.WriteBlock: requires that a block on top of the head has the next number, which header validation checks; state and trie writing is not modelled.
- Ancestors.HeaderChain.GetAncestor: requires validated headers; eviction from the header cache is not modelled.
- Network handlers, the committee and BFT parts of the agent, consensus, RPC, storage and cryptography.
