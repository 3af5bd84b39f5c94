# Proofs about the chain, pool and feed logic of a Go Ethereum node

This project models the parts of the node whose correctness depends on several data structures
changing together, and proves what every operation keeps and what whole runs guarantee. The
models follow the code: objects with mutable fields are classes, loops are loops with invariants,
and everything that comes from outside (the virtual machine, blocks that cannot be retrieved,
channels that happen to be ready, coin tosses, clocks) is a parameter or a nondeterministic choice.

`dafny verify dfyconfig.toml` checks the whole project.

| file | what it is about |
|---|---|
| `collections.dfy` | members and repeats of sequences |
| `heap.dfy` | the binary heap of Go's `container/heap`, on sequences |
| `transactions.dfy` | transactions, maps from nonce to transaction, ranks and sorted listings |
| `tx_list.dfy` | nonce-sorted lists with a heap index, a sorted cache and cost caps |
| `tx_priced.dfy` | the lookup with its slot count, and the price heap with stale entries |
| `tx_noncer.dfy` | virtual nonces |
| `pool_lists.dfy` | what it means for pending, queue and lookup to agree; gap-free nonces; truncation |
| `tx_pool.dfy` | the pool's operations, and any sequence of them |
| `account_lists.dfy` | promotion and demotion on an account's list objects, and the maps they stand for |
| `reorg_loop.dfy` | the scheduler of the pool's background runs |
| `pool_node.dfy` | scheduler, pool and chain together, in every interleaving |
| `block_tree.dfy` | parent-closed header stores, ancestors, branches and forks |
| `header_chain.dfy` | writing headers, fork choice, ancestor queries through the index |
| `block_chain.dfy` | fork choice, reorganisation, canonical index, transaction lookup table |
| `reinject.dfy` | what a reorganisation gives back to the pool |
| `chain_indexer.dfy` | sections of a chain index that run behind a changing chain |
| `gas.dfy`, `state_transition.dfy` | intrinsic gas, message execution, the gas books of a block |
| `feed.dfy` | one value sent to many channels |
| `light_pool.dfy` | the light client's pool across reorganisations |
| `hash_fn.dfy` | the memoised block hash function |
| `gas_limit.dfy` | the gas limit controller |
| `hd_path.dfy` | derivation paths |
| `options.dfy`, `uint64.dfy` | optional values, 64-bit arithmetic |

## Main results

* In every reachable state of the pool, the lookup is the disjoint union of pending and queue, no
  nonce of an account is in both, no list is empty, slots are counted right, and the lookup never
  removes what it does not hold (`TxPool.Run`, `Consistent`). If resets only extend the chain, each
  account's pending nonces are exactly the interval from its state nonce to its virtual nonce.
* The price heap has an entry for every known transaction, so `Underpriced` compares with the
  whole pool and `Discard` never drops a dearer remote transaction than it keeps. In a full pool,
  `Add` says exactly who leaves and where the new transaction ends up.
* Promotion and demotion carried out on the list objects, with their heaps, caches and caps, do to
  their contents what the pool's maps undergo (`Account.Promote`, `Account.Demote`).
* The canonical index up to the head is the head's ancestor path after any run of block writes; the
  lookup table moves exactly from one branch to the other, and stays that of the canonical chain
  over whole runs in which no transaction repeats on a chain. What the pool gets back is exactly
  what only the abandoned branch holds.
* Sections of the chain index are linked to each other although they are processed without the lock,
  whatever the canonical index holds when it is read; beyond the checkpoint, the last one is canonical
  when it is asked for.
* In a block, gas used and gas left add up to the limit, and it is rejected exactly if a message breaks
  a rule when its turn comes, with the first such rule. Executing a message conserves ether but for
  what the machine destroys; the finalisation of its transaction conserves it exactly if nothing is
  left on, or paid to, an account that has destructed itself.
* Once the channel of a promotion or reset request is closed, and not by a shutdown, a run that covers the
  request has taken place since, with all that such a run guarantees, in every interleaving with other operations on the pool.
* A send reaches each subscription that exists at its start exactly once, unless it is removed
  before its turn, in every interleaving.
* Over any run of head events, whatever headers are missing, the change maps that the light pool reports
  add up to what is pending; without gaps and repeated transactions, exactly its transactions in no
  block below the head are pending.

## Where a property holds only under a condition

* Entries above the head: adopting a single block that is below the old head leaves them
  (`StaleEntryExample`); `Advance` states exactly when the index is clean.
* One matching section head does not vouch for the sections below it: with an entry left above the head,
  the indexer gets no reorganisation signal and reports a section that is not canonical
  (`StaleSectionExample`). It does exactly if the index entries at the section ends are linked
  (`VouchesExactly`), as on every index that is one linked chain (`ChainVouches`).
* `GetAncestor` is right whenever its answer is not zero, unless the walk meets the index within the budget
  and the index has another block in the place of the ancestor (`Misled`), as left by block writes
  (`StaleAncestorExample`). On an index of the head's ancestors with nothing above, these are exactly
  the `Misleading` questions (`MisledExactly`): with a number so far above the block's own that the
  walk runs past the genesis block above the head (`TooHighExample`), or about the zero hash
  (`MisleadingExample`).
* `Discard` counts entries of the price heap. A transaction that was removed and came back before the
  heap was rebuilt has two entries, is paid for twice and freed once (`DoubleEntryExample`). The
  slots paid for are the slots freed exactly if every live remote transaction has one entry
  (`ChargedIsFreed`); every request is met, or all remote ones leave, exactly if no entry repeats
  an earlier one while another transaction has yet to come up (`EnoughForAll`), which without ties
  means that none but the dearest has a second entry (`EnoughUntied`). A lone doubled transaction
  is harmless (`LoneDouble`).
* The computed gas limit obeys the step rule for every usage exactly from a parent limit of 5120
  on (`AllowedFrom5120`); below that, full blocks ask for one too many.
* The empty derivation path prints as `m`, which does not parse (`RoundTrip`).
* A run with a reset promotes queued transactions from the state nonce, not from the end of the
  pending ones. After an extension of the chain the nonce that follows the pending ones is queued
  exactly for the accounts whose old virtual nonce was queued and payable behind pending
  transactions that outlast the reset (`ResetLeaves`, `ResetLeavesExample`).
* A shutdown of the pool's scheduler closes the channel of a run that never takes place; a closed
  channel stands for a covering run exactly if it is not that one (`ClosedMeansCovered`,
  `ShutdownExample`).
* A light pool that finds a header of the new branch missing above the fork goes on from there. Its mined
  blocks are then on the path of the head exactly if none of them is stranded between the fork and
  that place (`ReorgOnNewHead`, `StrandedOffPath`, `GapExample`). If the chain comes back to a stranded
  block, its transactions are reported as mined again: the change map is exactly the difference of
  what was and is pending unless a block that is recorded as mined is checked (`RelistExample`).
* A transaction conserves ether exactly if the machine destroys none, leaves none on accounts that have
  destructed themselves, and no fee or refund is paid to one (`ConservedExactly`); a miner whose
  contract destructs itself loses the fee (`CoinbaseExample`).

## Model

| member | source | states |
|---|---|---|
| `Transactions.NumSlots` | core/tx_pool.go:1578-1580 | the number of 32 kB slots: the least that cover the size |
| `Transactions.FlatUnique` | core/tx_list.go:203-216 | a map has only one nonce-sorted listing, so a cached listing that is one equals a fresh sort |
| `TxLists.SortedMap.Put` | core/tx_list.go:73-79 | inserts or overwrites one nonce; the index stays a heap permutation of the keys and no stale cache survives |
| `TxLists.SortedMap.Forward` | core/tx_list.go:84-98 | removes exactly the nonces below the threshold, in order, and shifts a cache to what a fresh sort gives |
| `TxLists.SortedMap.Filter` | core/tx_list.go:102-123 | removes exactly the selected transactions and rebuilds the index |
| `TxLists.SortedMap.Cap` | core/tx_list.go:127-148 | keeps exactly the lowest nonces up to the threshold, returns the rest highest first, and cuts the cache correctly |
| `TxLists.CacheCapped` | core/tx_list.go:143-146 | cutting as many transactions off a cached listing as were dropped leaves the listing of what remains |
| `TxLists.SortedMap.Remove` | core/tx_list.go:152-169 | removes one nonce if it is there, and says whether it was |
| `TxLists.SortedMap.Ready` | core/tx_list.go:178-193 | takes out the leading run of consecutive nonces if it starts no later than asked, and nothing else |
| `TxLists.SortedMap.Flatten` | core/tx_list.go:203-216 | the result, cached or not, is the nonce-sorted listing of the contents |
| `TxLists.TxList.Add` | core/tx_list.go:251-272 | a transaction enters exactly if its nonce is free or it outbids the holder in both price conditions; the caps still bound all contents |
| `TxLists.TxList.Filter` | core/tx_list.go:290-314 | the short circuit on the caps equals the full filter; a strict list keeps its payable prefix and reports what follows |
| `TxLists.TxList.Remove` | core/tx_list.go:325-336 | a strict list loses the nonce and everything above it, which is reported; others lose one |
| `TxLists.TxList.Cap` | core/tx_list.go:318-320 | the capped list holds the lowest nonces |
| `TxLists.TxList.Ready` | core/tx_list.go:345-347 | the ready run leaves the list, sorted |
| `TxLists.StrictRemovalsKeepGapFree` | core/tx_list.go:277-336 | Forward, strict Remove, strict Filter and Cap leave a gap-free list gap-free |
| `PricedTxs.Lookup.Add` | core/tx_pool.go:1556-1564 | slots stay the sum of the slots of all known transactions |
| `PricedTxs.Lookup.Remove` | core/tx_pool.go:1567-1575 | slots stay the sum; callers must know the transaction, as an unknown hash would crash |
| `PricedTxs.SlotSumWithout` | core/tx_pool.go:1548-1553 | the slot sum does not depend on the order of summation |
| `PricedTxs.CheapestFirst` | core/tx_list.go:373-383 | the root of the price heap has the lowest price |
| `PricedTxs.PricedList.Removed` | core/tx_list.go:421-436 | stale counting either leaves the heap alone or rebuilds it with exactly the known transactions, each once |
| `PricedTxs.PricedList.Cap` | core/tx_list.go:440-467 | returns exactly the tracked remote transactions below the threshold; everything else stays in the heap |
| `PricedTxs.PricedList.Underpriced` | core/tx_list.go:471-493 | on a non-empty pool, true exactly for remote transactions that are no dearer than every known one |
| `PricedTxs.PricedList.Discard` | core/tx_list.go:497-520 | drops the live remote entries from the cheapest on, as many as it takes for entries to pay for the slots, or all; other entries stay |
| `PricedTxs.LeavingCheapest` | core/tx_list.go:497-520 | only known remote transactions leave, and none is dearer than a remote one that stays |
| `PricedTxs.LeavingNeeded` | core/tx_list.go:497-520 | without one of those that leave, fewer slots than asked would be free |
| `PricedTxs.EnoughForAll` | core/tx_list.go:497-520 | the transactions that leave free enough slots, or are all, for every request exactly if no entry repeats an earlier one while another transaction has yet to come up |
| `PricedTxs.EnoughUntied` | core/tx_list.go:497-520 | where no two transactions tie, that holds exactly if none but the dearest has a second entry |
| `PricedTxs.ChargedIsFreed` | core/tx_list.go:497-520 | the slots that entries pay for are the slots that become free, for every request, exactly if every live remote transaction has one entry |
| `PricedTxs.OneEntrySuffices` | core/tx_list.go:497-520 | with one entry each, every request is met or all leave |
| `PricedTxs.LoneDouble` | core/tx_list.go:497-520 | a second entry is harmless when there is nothing else to drop |
| `PricedTxs.DoubleEntryExample` | core/tx_list.go:409-520 | removing and adding one transaction before the heap is rebuilt, and then asking for two slots, frees one while others stay |
| `Noncers.TxNoncer.Get` | core/tx_noncer.go:45-55 | reading caches the state nonce and changes no answer |
| `Noncers.TxNoncer.Set` | core/tx_noncer.go:59-64 | sets one nonce and no other |
| `Noncers.TxNoncer.SetIfLower` | core/tx_noncer.go:68-79 | the minimum of the old answer and the new nonce, for one account only |
| `TxPools.TxPool.EnqueueTx` | core/tx_pool.go:643-669 | the queue takes the transaction exactly if its nonce is free or it outbids the holder, whose place in the lookup it takes |
| `TxPools.TxPool.PromoteTx` | core/tx_pool.go:687-723 | the nonce is free in the pending list, so nothing is rejected or replaced; the virtual nonce moves just past it |
| `TxPools.TxPool.RemoveTx` | core/tx_pool.go:866-911 | a removed pending transaction sends its successors to the queue and lowers the virtual nonce; unknown ones change nothing |
| `TxPools.TxPool.MakeRoom` | core/tx_pool.go:589-595 | exactly the transactions that the price heap yields for the slots leave; of each pending list exactly what is below the lowest nonce that left it remains; consistency, readiness and gap-freedom survive |
| `PoolLists.CutBelowLowest` | core/tx_pool.go:866-911 | what remains of a pending list are the nonces below the lowest removed one, whatever the order of removal |
| `TxPools.TxPool.Admit` | core/tx_pool.go:581-596 | in a full pool a transaction is refused exactly if it is remote and no dearer than all known ones; else exactly the transactions for the missing slots leave |
| `TxPools.RoomSuffices` | core/tx_pool.go:589-595 | under the order condition of `EnoughForAll` the room made is enough for the new transaction, or no remote one is left |
| `TxPools.TxPool.Decide` | core/tx_pool.go:597-637 | takes the place of the transaction with its sender and nonce exactly if it outbids it, and else joins the queue |
| `TxPools.TxPool.Add` | core/tx_pool.go:567-638 | which of the errors is returned and when; in a full pool, who leaves, which pending transactions go back to the queue, and where the transaction ends up in the lists that remain; who becomes local; consistency, readiness and gap-freedom survive |
| `TxPools.TxPool.AddTxs` | core/tx_pool.go:816-828 | every result says what happened to its transaction: known before, now in the pool, or refused without a trace; dirty accounts are the senders of exactly those added without a replacement |
| `TxPools.TxPool.PromoteReady` | core/tx_pool.go:1195-1203 | exactly the run from the virtual nonce on moves from queue to pending |
| `TxPools.TxPool.PromoteAccount` | core/tx_pool.go:1174-1227 | drops stale and unpayable transactions, promotes the run from the virtual nonce, caps the rest of a remote queue |
| `TxPools.TxPool.PromoteExecutables` | core/tx_pool.go:1169-1229 | each account is promoted exactly as specified and no other is touched; the result lists exactly the transactions that have become pending; pending nonces stay gap-free; the next nonce of a promoted account is not queued |
| `PoolLists.PromotionKeeps` | core/tx_pool.go:1169-1229 | the nonce intervals across a promotion, for any account and any lists |
| `TxPools.TxPool.DemoteAccount` | core/tx_pool.go:1368-1411 | drops mined and unpayable pending transactions and moves what follows a hole back to the queue |
| `TxPools.TxPool.DemoteUnexecutables` | core/tx_pool.go:1366-1413 | every account is demoted exactly as specified, and afterwards every pending transaction can be executed at the head state |
| `PoolLists.DemotionSettles` | core/tx_pool.go:1366-1413 | demotion after an extension of the chain leaves the interval from the new state nonce |
| `TxPools.TxPool.TruncatePending` | core/tx_pool.go:1234-1316 | the limit is met or every remote account is within its allowance; locals and small senders lose nothing, the others end at one common level with their lowest nonces; no round takes place once the limit is met |
| `PoolLists.ResetLeaves` | core/tx_pool.go:1024-1042 | after promotion from the state nonce and demotion, the nonce that follows the pending ones is queued exactly if the old virtual nonce was queued and payable and all pending ones from the state nonce on are payable |
| `PoolLists.ResetLeavesExample` | core/tx_pool.go:1024-1042 | pending nonces 0 and 1, queued nonce 2, state nonce 0: the reset leaves 2 queued |
| `TxPools.TxPool.Revalidate` | core/tx_pool.go:1024-1052 | after a reset that extends the chain, the nonce that follows the pending ones is queued for exactly the accounts of `ResetLeaves`; all pending transactions are executable |
| `PoolLists.PromotionExhausts` | core/tx_pool.go:1195-1203 | after a promotion the next nonce is not in the queue |
| `PoolLists.LevelIsTruncated` | core/tx_pool.go:1234-1316 | levelling down a group of largest senders is a fair truncation |
| `TxPools.TxPool.TruncateQueue` | core/tx_pool.go:1319-1361 | the queue shrinks to exactly its limit, or holds local transactions only; the accounts heard of last lose theirs first; locals lose nothing and pending is untouched |
| `TxPools.TxPool.SetGasPrice` | core/tx_pool.go:416-425 | afterwards the pool holds exactly the local and the dear enough of the known transactions |
| `TxPools.TxPool.Evict` | core/tx_pool.go:356-370 | exactly the queues of idle remote accounts are emptied |
| `TxPools.TxPool.Reset` | core/tx_pool.go:1143-1164 | a failed reset changes nothing; a good one moves to the new state, virtual nonces start over from it, and each injected transaction is handled as its result says |
| `Reinjection.Reinject` | core/tx_pool.go:1080-1142 | injects exactly the transactions of the abandoned branch above the fork that the new branch does not hold, in order; nothing when the chain only grows, or the heads are far apart; gives up exactly if a block that the walk needs cannot be read |
| `Reinjection.MakeRequest` | core/tx_pool.go:1080-1152 | the request that the walk and the new state make up; if the chain only grows and no nonce falls, it extends the state of the pool |
| `Reinjection.DifferenceMovesAll` | core/tx_pool.go:1111-1141 | every transaction of the old chain is injected or in the new chain, and none is both unless the old chain holds one twice |
| `Reinjection.TxDifference` | core/types/transaction.go:277-292 | the list without the transactions of the other, in order |
| `Reinjection.ResetToHead` | core/tx_pool.go:1080-1164 | walk and reset together: unreadable blocks or a missing state change nothing, else the difference of the branches is offered to the pool |
| `TxPools.TxPool.RunPromotion` | core/tx_pool.go:1016-1059 | a run without a new head keeps all invariants and brings both lists within their limits; if nonces were gap-free they stay so, and nothing promotable is left in the queues of the dirty accounts |
| `TxPools.TxPool.RunReset` | core/tx_pool.go:1016-1059 | a run with a new head keeps all invariants and limits; on an extension of the chain also gap-freedom, and only what continued pending transactions that outlast the reset may be left promotable |
| `TxPools.TxPool.UpdateNonces` | core/tx_pool.go:1054-1058 | setting virtual nonces past the last pending ones makes the intervals exact |
| `TxPools.TxPool.Run` | core/tx_pool.go:567-1413 | every sequence of operations keeps lookup, lists, price heap and readiness; if resets only extend, pending nonces are exactly from state nonce to virtual nonce and nothing below is queued |
| `PoolLists.LookupSize` | core/tx_pool.go:438-457 | the lookup holds as many transactions as the pending and queued lists together |
| `PoolLists.EnqueueStep` | core/tx_pool.go:643-669 | consistency of lists and lookup across an enqueue, also one that replaces |
| `PoolLists.RemovePendingStep` | core/tx_pool.go:866-911 | consistency of lists and lookup across the removal of a pending transaction |
| `AccountLists.Account.Promote` | core/tx_pool.go:1174-1220 | on list objects with heap, cache and caps: the contents change as `Promoted` says, the promoted transactions come sorted, and dropped and kept ones add up |
| `AccountLists.Account.Demote` | core/tx_pool.go:1369-1406 | on list objects with heap, cache and caps: the contents change as `Demoted` says, and dropped and kept ones add up |
| `ReorgScheduler.Scheduler.Launch` | core/tx_pool.go:957-969 | a run is launched only when no other is active, and takes all merged requests with it |
| `ReorgScheduler.Scheduler.OnHead` | core/tx_pool.go:332-336 | a new head is merged into the pending reset and promised to the next run |
| `ReorgScheduler.Scheduler.OnPromote` | core/tx_pool.go:982-990 | requested accounts are merged and promised to the next run |
| `ReorgScheduler.Scheduler.OnShutdown` | core/tx_pool.go:1004-1011 | waits for the current run and closes one further channel |
| `ReorgScheduler.Scheduler.AtMostOne` | core/tx_pool.go:946-1013 | two active runs are the same run |
| `ReorgScheduler.Scheduler.ClosedMeansCovered` | core/tx_pool.go:915-933 | a closed channel belongs to a run that covers every request answered with it, exactly unless it is the one that a shutdown closes |
| `ReorgScheduler.ShutdownExample` | core/tx_pool.go:1004-1011 | a promotion request followed by a shutdown: its channel is closed and there was no run |
| `ReorgScheduler.ResetsChain` | core/tx_pool.go:972-980 | each executed reset starts on the head where the executed reset before it ended |
| `ReorgScheduler.FirstReset` | core/tx_pool.go:322-336 | the first executed reset starts on the head the pool began with |
| `ReorgScheduler.Scheduler.Schedule` | core/tx_pool.go:946-1013 | the invariants hold after every sequence of events before shutdown, and history only grows |
| `PoolNodes.Node.ClosedMeansDone` | core/tx_pool.go:915-1059 | a request whose channel is closed, not by a shutdown, has been followed by a run that covers it and did what `TookPlace` says |
| `PoolNodes.Node.RunJob` | core/tx_pool.go:1016-1059 | a run executes a promotion of its accounts or a reset between its heads; on heads that grow, the merged reset extends the state of the pool |
| `PoolNodes.GrowsFurther` | core/tx_pool.go:972-980 | when each head is on top of the one before, so is the last head of a merged reset on top of its first |
| `PoolNodes.Node.RunSteps` | core/tx_pool.go:946-1059 | every interleaving of requests, launches, runs, their ends and other operations keeps scheduler, pool and the record of runs; if all resets extend the chain, the pool stays gap-free |
| `BlockTrees.AncestorTransitive` | core/headerchain.go:364-397 | an ancestor of an ancestor is an ancestor |
| `BlockTrees.PathBelow` | core/headerchain.go:364-397 | an index that meets a branch once agrees with it all the way down |
| `BlockTrees.EntriesAbove` | core/headerchain.go:183-191 | the index entries above a number up to the first gap, and no others |
| `HeaderChains.Overwrites` | core/headerchain.go:193-205 | the entries to overwrite are exactly the ancestors above the highest number at which branch and index meet, and each of them was different |
| `HeaderChains.Rerouted` | core/headerchain.go:177-214 | after the batch the index is exactly the path of the new head, with nothing above it |
| `HeaderChains.HeaderChain.WriteHeader` | core/headerchain.go:141-225 | when a header becomes the head, in terms of total difficulty, height and coin; index path and heaviest head are kept |
| `HeaderChains.HeaderChain.InsertHeaderChain` | core/headerchain.go:293-334 | stores exactly the headers up to the first with an unknown parent or an interruption, and says which it was; the head stays heaviest |
| `HeaderChains.HeaderChain.GetAncestor` | core/headerchain.go:364-397 | on any index, a non-zero answer is what following parent links yields, exactly unless the walk meets the index and that has another block in the place of the ancestor; any hash, number, cache and budget may be given; on the own index there is an answer within the budget |
| `HeaderChains.HeaderChain.MisledExactly` | core/headerchain.go:364-397 | on an index of the ancestors of the head, exactly misleading questions get a wrong answer |
| `HeaderChains.StaleAncestorExample` | core/headerchain.go:364-397 | a wrong ancestor, from an index with entries left above the head |
| `HeaderChains.MisleadingExample` | core/headerchain.go:364-397 | a question with a misleading answer on a chain of one block |
| `HeaderChains.TooHighExample` | core/headerchain.go:364-397 | a stored block asked for with too high a number, with a misleading answer |
| `HeaderChains.FollowIsAncestor` | core/headerchain.go:364-397 | following parent links a number of times reaches the ancestor at that distance |
| `BlockChains.WalkBack` | core/blockchain.go:2079-2123 | finds the highest common ancestor and both branches above it; fails exactly if an ancestor of either block, strictly below it and not below the fork, cannot be read, with the error of the branch with the highest such block, the old one first |
| `BlockChains.BlockChain.WriteBranch` | core/blockchain.go:2139-2150 | the adopted branch except its head is written to index and lookup table, lowest first |
| `BlockChains.BlockChain.Reorg` | core/blockchain.go:2023-2185 | fails, changing nothing, exactly if the walk does; else the index follows the new branch, and the table is right once the head is written |
| `BlockChains.LookupMoves` | core/blockchain.go:2139-2168 | writing the adopted branch and deleting the difference moves the table from one head to the other, also for transactions in both branches and in the new head |
| `BlockChains.CleanAfter` | core/blockchain.go:2151-2168 | what the clean-up above the current block leaves, in all cases |
| `BlockChains.BlockChain.Advance` | core/blockchain.go:1386-1398 | the index up to the head is its ancestor path; it is clean above exactly if two blocks were adopted or the new head is not below the old one |
| `BlockChains.BlockChain.WriteBlockWithState` | core/blockchain.go:1410-1547 | the fork choice in full; path, table and heaviest head are kept; a side block or a failed reorganisation changes no index |
| `BlockChains.BlockChain.WriteBlocks` | core/blockchain.go:1410-1547 | after any run of block writes the index up to the head is its ancestor path; without lost blocks the head is the heaviest; the lookup table is that of the canonical chain if no transaction repeats on an adopted one, and the index is clean if no single block below the head was adopted |
| `BlockChains.StaleEntryExample` | core/blockchain.go:2151-2168 | a run after which an index entry is left above the head |
| `ChainIndexers.ChainIndexer.SetValidSections` | core/chain_indexer.go:472-484 | section heads beyond the new count are gone, the others untouched |
| `ChainIndexers.ChainIndexer.NewHead` | core/chain_indexer.go:240-297 | a reorganisation keeps exactly the checkpointed sections and those that end by its head; without one, known sections grow to all that are confirmed; which head is passed on to child indexers and when |
| `ChainIndexers.ChainIndexer.OnEvent` | core/chain_indexer.go:216-235 | sections are rolled back exactly if the new head is not on the previous one, the index has another block in its place, and the common ancestor is known |
| `ChainIndexers.ChainIndexer.VerifyLastHead` | core/chain_indexer.go:420-427 | on any index, drops from the top exactly the sections whose heads are not canonical, down to the first that is or the checkpoint; the rest stays as it was |
| `ChainIndexers.ChainIndexer.VouchesExactly` | core/chain_indexer.go:417-427 | with the last section head canonical, all from the checkpoint on are exactly if the index entries at the section ends are linked |
| `ChainIndexers.ChainIndexer.ChainVouches` | core/chain_indexer.go:417-427 | on an index that is one linked chain, the last section head vouches for all from the checkpoint on |
| `ChainIndexers.StaleSectionExample` | core/chain_indexer.go:222-231 | a run that indexes three blocks and then asks with an entry left above the head: three sections are reported, and the second is not canonical |
| `ChainIndexers.LinkedIsCanonical` | core/chain_indexer.go:385-415 | a parent-linked stretch below a canonical block is canonical |
| `ChainIndexers.ChainIndexer.ProcessBlock` | core/chain_indexer.go:395-409 | a block extends the section only if it is known and linked to the last one; else the section fails |
| `ChainIndexers.ChainIndexer.EndUpdate` | core/chain_indexer.go:345-365 | a section counts only if it is complete and the head below it has not changed meanwhile, and its last block is passed on to child indexers; else the last section beyond the checkpoint is canonical and known sections are the stored ones |
| `ChainIndexers.ChainIndexer.Sections` | core/chain_indexer.go:432-438 | on any index, the last reported section beyond the checkpoint is canonical and its last block the reported one, exactly the sections above are given up, and all from the checkpoint on are canonical exactly if the index entries at their ends are linked |
| `ChainIndexers.ChainIndexer.Run` | core/chain_indexer.go:194-379 | in every interleaving of events, queries and unlocked processing, on any index, each stored section is linked to the one below it |
| `IntrinsicGas.ComputeIntrinsicGas` | core/state_transition.go:107-141 | the guarded 64-bit sum is the exact price by bytes, or overflow exactly if that does not fit |
| `StateTransitions.TransferConserves` | core/evm.go:97-105 | a transfer moves ether between accounts, or leaves one as it is, and conserves the total |
| `StateTransitions.GasPool.SubGas` | core/gaspool.go:39-45 | subtracts if there is enough, else changes nothing |
| `StateTransitions.StateTransition.BuyGas` | core/state_transition.go:175-188 | buys exactly if balance and pool suffice, with the balance error first; a refusal changes nothing |
| `StateTransitions.StateTransition.PreCheck` | core/state_transition.go:190-201 | the nonce and purchase rules, and exactly which error is returned when |
| `StateTransitions.StateTransition.RefundGas` | core/state_transition.go:272-287 | refund capped at half the gas used; the rest is paid back to sender and pool |
| `StateTransitions.StateTransition.TransitionDb` | core/state_transition.go:216-270 | executes exactly if the six consensus rules hold, else returns the first that is broken; ether conserved but for what the machine destroys, half the intrinsic gas up to the limit charged, pool down by exactly that; what an invalid message leaves behind |
| `StateTransitions.NoErrorMeansAcceptable` | core/state_transition.go:216-250 | no rule is broken exactly if the message is acceptable |
| `StateTransitions.SettledConserves` | core/state_transition.go:250-270 | purchase, refund and reward add up for every machine that creates no ether, whoever the miner is |
| `StateTransitions.SelfDestructTotal` | core/vm/instructions.go:904-910 | an account that destructs itself conserves ether exactly if it does not hand its balance to itself |
| `StateTransitions.FinalisedTotal` | core/state/statedb.go:729-801 | finalisation destroys what destructed accounts hold, and nothing else |
| `StateTransitions.ConservedExactly` | core/state_processor.go:99-109 | a transaction creates no ether, and conserves it exactly if the machine destroys none, leaves none on what it destructs, and no fee or refund goes there |
| `StateTransitions.CoinbaseExample` | core/state_processor.go:88-129 | a miner whose contract destructs itself: ether is lost |
| `StateTransitions.ApplyTransaction` | core/state_processor.go:88-129 | the running total grows by the gas used while pool and total keep their sum; the state is finalised, so refunds start over and ether is conserved exactly as `ConservedExactly` says; a refused transaction returns the first broken rule and leaves pool and state as stated |
| `StateTransitions.Process` | core/state_processor.go:56-82 | the block is rejected exactly if a message breaks a rule when its turn comes, with that error; else state and pool are those of running and finalising all messages; pool gas and gas used make up the block limit after every transaction; receipts accumulate; ether is conserved exactly if every message keeps it when its turn comes |
| `Feeds.Find` | event/feed.go:213-220 | the first case with the channel, or -1 exactly if there is none |
| `Feeds.DeleteRemoves` | event/feed.go:223-225 | deleting takes one channel out of the cases and no other |
| `Feeds.DeletePrefix` | event/feed.go:172-177 | what is left of the active prefix after a deletion inside or outside of it |
| `Feeds.DeactivateMoves` | event/feed.go:228-232 | swapping a case behind the active prefix takes its channel, and no other, out of it |
| `Feeds.Feed.Subscribe` | event/feed.go:72-92 | a subscription waits in the inbox, also one of a channel that is subscribed already |
| `Feeds.Feed.Remove` | event/feed.go:103-124 | a live channel is found in exactly one list, and leaves it |
| `Feeds.Feed.RemoveDuring` | event/feed.go:171-177 | an interrupting removal finds its case; it counts as skipped exactly if the case was still active |
| `Feeds.Feed.Send` | event/feed.go:128-190 | in every interleaving each initial subscription gets the value exactly once unless removed before its turn; the count is right; the remaining cases are the initial ones minus removals |
| `Feeds.ExactlyOnce` | event/feed.go:128-190 | a channel gets the value once for each of its subscriptions that was not removed before its turn |
| `LightPools.ReportsMined` | light/txpool.go:142-149 | marking a transaction as mined keeps the changes leading from one pending set to the other, and is spurious exactly if it neither is nor was pending |
| `LightPools.DiffRolledBack` | light/txpool.go:142-149 | marking a transaction as rolled back keeps the change map the exact difference, also after mining |
| `LightPools.DiffUnique` | light/txpool.go:137-149 | only one change map is the difference of two pending sets |
| `LightPools.ReportsApply` | light/txpool.go:137-149 | applying the change map to what was pending gives what is, also with spurious entries |
| `LightPools.TxPool.CheckMinedTxs` | light/txpool.go:166-198 | takes exactly the pending transactions of the block; when it fails, and that a failure changes nothing; a block recorded as mined is reported again |
| `LightPools.TxPool.RollbackTxs` | light/txpool.go:202-214 | the mined transactions of a block become pending again |
| `LightPools.FindFork` | light/txpool.go:226-241 | finds the highest common ancestor and both branches; with the old branch known, stops at the highest missing header of the new branch exactly if one above the fork is missing; a crash needs a missing header of the old branch |
| `LightPools.TxPool.CheckBranch` | light/txpool.go:250-257 | stops at the first failure with the head on the last checked block; pending is what was and is in no checked block; the changes are exact unless a block recorded as mined is checked |
| `LightPools.TxPool.ClearOld` | light/txpool.go:259-276 | forgets exactly the buried canonical blocks; pending is untouched and the rest kept |
| `LightPools.TxPool.ReorgOnNewHead` | light/txpool.go:222-279 | in every state: the changes lead from pending before to pending after, also on an early return or a gap, and when they are exactly the difference; pending is exactly what was or was rolled back and is in no checked block; nothing is lost but what is buried; from a state with mined blocks on the path, exactly when they are there again |
| `LightPools.GapExample` | light/txpool.go:233-240 | two head events, the second with a missing header: the search ends in a gap and a mined block is not on the path of the head |
| `LightPools.RelistExample` | light/txpool.go:166-198 | a third head event that comes back to the stranded block: its transaction is reported as mined once more |
| `LightPools.StrandedOffPath` | light/txpool.go:226-241 | after a gap, the mined blocks are on the path of the new head exactly if none is between the fork and the end of the search, or it is buried |
| `LightPools.StaysUnmined` | light/txpool.go:222-279 | if no transaction repeats on the old chain, what is pending at the new head is in no block below it |
| `LightPools.UnminedClassifies` | light/txpool.go:222-279 | of the known transactions exactly those in no block below the head are pending |
| `LightPools.TxPool.RunHeads` | light/txpool.go:287-318 | over any run of head events on a growing chain, with any headers missing, the reported changes applied in order give what is pending and nothing is lost but what is discarded; without gaps and repeats, exactly the known transactions in no block below the head are pending; it ends early only when a header on the path of the head of the pool is missing |
| `HashFns.HashFn.GetHash` | core/evm.go:62-93 | with any cache left by earlier queries, the answer of a fresh walk, in 64-bit arithmetic |
| `HashFns.HashFn.GetHashes` | core/evm.go:62-93 | every query in any sequence of queries gets the answer of a fresh walk |
| `HashFns.FreshIsAncestor` | core/evm.go:62-93 | with all ancestors known, the walk answers with the ancestor for every lower number and with the zero hash for all others |
| `GasLimits.NoWrap` | core/block_validator.go:108-139 | on valid headers the 64-bit computation never wraps around |
| `GasLimits.AllowedWhen` | core/block_validator.go:108-139 | the computed limit is allowed exactly when the usage target is, or floor or ceiling replaces it |
| `GasLimits.AllowedFrom5120` | core/block_validator.go:108-139 | every usage, floor and ceiling gives an allowed limit exactly from a parent limit of 5120 on (section 4.3.4 of the Yellow Paper) |
| `GasLimits.Approaches` | core/block_validator.go:108-139 | with floor and ceiling equal, each block moves by the largest allowed step towards them or reaches them |
| `GasLimits.Converges` | core/block_validator.go:108-139 | under any usage the limit moves monotonically to the aim, is there after a third as many blocks as it was away, and stays |
| `DerivationPaths.SplitJoins` | accounts/hd.go:72 | splitting at slashes loses nothing and leaves no slash |
| `DerivationPaths.ComponentPadded` | accounts/hd.go:92 | white space around a component makes no difference |
| `DerivationPaths.ComponentRoundTrip` | accounts/hd.go:90-115 | a printed component, hardened or not, parses to itself |
| `DerivationPaths.ParseDerivationPath` | accounts/hd.go:68-118 | the loop computes the specified parse, with the error of the first bad component |
| `DerivationPaths.String` | accounts/hd.go:122-136 | the loop computes the specified canonical form |
| `DerivationPaths.RoundTrip` | accounts/hd.go:68-136 | what is printed parses back for every path but the empty one, which is rejected |
| `DerivationPaths.ParsePrintParse` | accounts/hd.go:68-136 | printing what was parsed and parsing it again changes nothing |
| `DerivationPaths.RelativeIsRooted` | accounts/hd.go:72-86 | a relative path means the same as the path written out under the default root |

## Left out

- TxPools.TxPool.Run: nonces are unbounded, so a nonce of 2^64 - 1 wrapping around is not modelled.
- TxPools.TxPool.EnqueueTx: the pool's lists are values, maps from nonce to transaction; `AccountLists` carries promotion and demotion out on list objects, for the other operations only the lists themselves are refined; aliasing between accounts is not modelled.
- TxPools.TxPool.Reset: the transactions to inject again are an argument, computed by `Reinjection.Reinject` and passed on by `Reinjection.ResetToHead`; whether the new state can be had is a parameter.
- TxPools.TxPool.TruncateQueue: heartbeats are a parameter instead of clock readings.
- TxPools.TxPool.TruncatePending: which of several equally large senders comes first is left open.
- TxPools.TxPool.Evict: which accounts are idle is a parameter instead of a clock.
- TxPools.TxPool.AddTxs: the merging of errors with those of already known transactions in `addTxs` is not modelled.
- PricedTxs.Lookup.Add: transactions stand for their hashes, which are taken to be collision-free.
- PoolNodes.Node.RunSteps: a run with a reset is executed on a view of the chain that holds both heads, of which the new one can be read; an unreadable new head crashes the source.
- ReorgScheduler.Scheduler.Schedule: the queue of transaction events that a run announces is not modelled.
- HeaderChains.HeaderChain.GetAncestor: the cache of headers is a parameter that does not change during a query.
- HeaderChains.HeaderChain.WriteHeader: the index is the one that header writes leave, as the source demands that headers and blocks are not written side by side; header verification is not modelled; hashes determine headers and numbers follow parents.
- BlockChains.BlockChain.WriteBlockWithState: state and receipt storage, trie garbage collection, the head header and fast block markers, and log and head events are not modelled.
- BlockChains.BlockChain.Reorg: pruning of old lookup entries by the transaction index limit is not modelled.
- ChainIndexers.ChainIndexer.NewHead: the head for child indexers is returned; that children handle it by the same method is not spelled out.
- ChainIndexers.ChainIndexer.Sections: sections below the checkpoint are not verified, as in the code; the number without any section is the wrapped-around one.
- ChainIndexers.ChainIndexer.FailReset: giving up all sections when the backend refuses one is a single step; in the source it happens without the lock, so its loop can interleave with a head event.
- ChainIndexers.ChainIndexer.Run: adding a checkpoint in mid-run is not modelled.
- StateTransitions.StateTransition.TransitionDb: the virtual machine is a parameter that returns no more gas than it gets and creates no ether; account nonces are unbounded.
- StateTransitions.Process: the DAO fork's state change, block rewards at finalisation of the block, logs and blooms are not modelled; accounts are balances and nonces, so the deletion of empty ones does not show.
- Feeds.Feed.Subscribe: the check of the element type is not modelled.
- LightPools.TxPool.RunHeads: after a gap it is not stated which pending transactions are in blocks below the head, as those between are not looked at.
- LightPools.TxPool.ReorgOnNewHead: no block holds a transaction twice; sending and validating new transactions is not modelled.
- HashFns.HashFn.GetHash: the chain does not change between queries.
- DerivationPaths.ParseDerivationPath: the reading of integer literals is a parameter that inverts decimal printing; strings are sequences of characters, not of bytes.
- SetHead, fast sync and the freezer, block and header validation, the consensus engines, the state database and the virtual machine itself.
- Journals, metrics, events to subscribers of the pool, and the remote interfaces.
- Networking, synchronisation, mining, key management and the command line tools.
