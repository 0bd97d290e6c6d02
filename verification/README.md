# Verification of the node's core

This project models the core of a blockchain node derived from go-ethereum (the `smilobft` client) and proves
properties of its runs. It covers five parts of the program:

* the **canonical chain**: header and block writes, the number-to-hash index, the transaction lookup index,
  reorganisations, ancestor queries, the header query protocol and the memoised hash lookup of the virtual machine;
* the **transaction pool**: per-account executable and queued lists, the lookup by hash, the lazily cleaned price
  heap, virtual nonces, admission, promotion, both truncations, and the loop that schedules background runs;
* the **chain indexer**: sections processed in the background while the chain may reorganise;
* **gas and balance accounting** of a message and of a whole block, and the gas limit of the next block;
* **derivation paths**: a parser and a printer.

State that the program updates in place is a class with `modifies` clauses, loops are loops, and each method is
proved against a specification on values; the properties of whole runs are lemmas about those specifications.
Hashes of blocks are numbers with zero for the zero hash; the hash of a transaction is its content, so hashes do
not collide. Clocks, coins, signatures, the virtual machine and the vault are parameters.

Files: `Basics`, `BlockTree` (headers, ancestors, work), `HeaderChain`, `TdCache`, `HeaderQuery`, `HashLookup`,
`Branches` (fork walk), `BlockChain`, `PoolReset`, `ChainIndexer`, `Heap`, `TxSortedMap`, `TxList`, `PricedList`, `PoolView` (the pool
account by account), `PoolPromotion`, `PoolLevel` and `PoolQueue` (the two truncations), `PoolSize` (the limit on all
transactions), `PoolEviction` (what making room does to the accounts), `TxPool`, `PoolExample` (when a sender becomes local), `Scheduler`, `StateTransition`, `GasLimit`,
`DerivationPath`. `dafny verify dfyconfig.toml` checks all of them.

Where the code and its comments or intent differ, the model follows the code:

* `reorg` clears index entries above the head it started from when the new branch is a single block, so a heavier
  but lower single block leaves stale entries behind, and extending that block clears nothing, so they can stay.
  `BlockChains.IndexExactIff` gives, from every reachable index, the exact condition: an extension is exact when
  nothing was listed above the new head, a single block when it is not lower than the old head, and a branch of two
  or more blocks always, whatever was listed before. `BlockChains.StaleEntryExample` and
  `BlockChains.StaleExtensionExample` are inputs for the two failing cases.
* The Smilo refund credits the price of the used gas, not of the deposit, so the price of the unused gas leaves
  circulation. `StateTransitions.StateTransition.Settled` states the amount and `StateTransitions.SmiloLossExample` is
  a message.
* `truncateQueue` is described as dropping the oldest transactions; it drops those of the most recently active
  accounts first. `PoolQueues.NewerDrainedFirst` shows it for two accounts and `PoolQueues.NewestDrainedExample` is
  an input.
* The printed form of the empty derivation path is not accepted by the parser (`DerivationPaths.RoundTrip`).
* `add` marks an account as local only when the transaction goes to the queue, not when it replaces an executable
  one. `TxPools.TxPool.Add` states when that is, also for a full pool, where evicting a lower nonce of the same sender
  sends the slot back to the queue first. `PoolExamples.LocalReplacementExample` is an input.
* `GetTd` is described as reading by hash and number, but its cache is keyed by hash alone. `TdCaches.TdCache.GetTd`
  says when the two differ and `TdCaches.CachedElsewhereExample` is an input.
* A header query by number adds the skip in 64 bits without a check, so consecutive headers are skip+1 parent links
  apart if and only if the step does not wrap (`HeaderQueries.LinksApartIff`); with the largest skip the reply repeats
  one header (`HeaderQueries.LargestSkipRepeats`).
* A header query with an amount of 2^63 or more is answered with no headers, because the amount is converted to a
  signed integer.

## Model

| member | source | states |
|---|---|---|
| `HeaderChains.HeaderChain.WriteHeader` | src/blockchain/smilobft/core/headerchain.go:141-205 | A header without its parent at the height before changes nothing; any other is stored with its parent's total difficulty plus its own, becomes the head when that is more than the head's or equal and the coin says so, and else leaves head and index; the whole state is the specified one and the chain invariant is kept |
| `HeaderChains.HeaderChain.OverwriteStale` | src/blockchain/smilobft/core/headerchain.go:176-188 | The walk down from the parent stops at the first index entry that already agrees, and from there to the genesis every entry is the new head's ancestor |
| `HeaderChains.HeaderChain.Reroute` | src/blockchain/smilobft/core/headerchain.go:164-193 | After deleting above, overwriting below and writing the head, the index is exactly the new head's chain, with nothing above it |
| `HeaderChains.WriteKeepsInv` | src/blockchain/smilobft/core/headerchain.go:141-205 | Every write keeps: stored headers are linked, each total difficulty is the sum along its ancestors, the head's is maximal, and the index is the head's chain |
| `HeaderChains.EveryRun` | src/blockchain/smilobft/core/headerchain.go:141-205 | For every run of writes from the genesis: the index is defined exactly on 0..head, each entry is the parent of the next, its top is the head, every stored total difficulty is the work along the ancestors and none exceeds the head's |
| `HeaderChains.InvSpellsOutHead` | src/blockchain/smilobft/core/headerchain.go:141-205 | The invariant read entry by entry: domain, parent links and top of the number index |
| `HeaderChains.HeaderChain.GetAncestor` | src/blockchain/smilobft/core/headerchain.go:344-374 | Returns exactly the n-th parent and its number, or none when the distance is too long, the block is unknown or the walk off the index is longer than the budget; the budget left is what it was less exactly the off-index headers, and a distance of one is free |
| `HeaderChains.OffIndexCounts` | src/blockchain/smilobft/core/headerchain.go:353-372 | What the budget is charged for are exactly the blocks before the first one on the index |
| `HeaderChains.CanonicalJump` | src/blockchain/smilobft/core/headerchain.go:353-364 | Once a block is in the index, the entry `a` below it is its `a`-th parent, which justifies the shortcut |
| `TdCaches.TdCache.GetTd` | src/blockchain/smilobft/core/headerchain.go:378-390 | Every answer is the difficulty summed along the ancestors of a stored header with that hash; there is one exactly when the hash is cached or stored under that number, and it is the database's if and only if the hash was not cached under another number |
| `TdCaches.TdCache.Write` | src/blockchain/smilobft/core/headerchain.go:141-155 | Writing a header caches its total difficulty, and everything cached stays the work along the ancestors |
| `TdCaches.CachedElsewhereExample` | src/blockchain/smilobft/core/headerchain.go:378-390 | A concrete chain whose cached genesis is answered under a number where the database has nothing |
| `HeaderQueries.AnswerHeaders` | src/blockchain/smilobft/eth/handler.go:462-541 | Every reply starts at the requested origin, each header is the one the query asks for after the one before, it has at most 192 headers and at most the amount, none for an amount of 2^63 or more, and is otherwise empty exactly when the origin is unknown; it stops exactly at the first place where it must, and when it is shorter than that because, by number, no stored header follows, by hash downwards, the chain ends or more than 100 headers off the index would be read, by hash upwards, the index is left or ends |
| `HeaderQueries.NothingFollows` | src/blockchain/smilobft/eth/handler.go:494-539 | Nothing is next exactly when no stored header follows, by hash downwards and by number |
| `HeaderQueries.LinksApartIff` | src/blockchain/smilobft/eth/handler.go:494-539 | Consecutive headers of a reply are exactly skip+1 parent links apart in the requested direction: always for a query by hash, and for one by number if and only if the step does not wrap |
| `HeaderQueries.LargestSkipRepeats` | src/blockchain/smilobft/eth/handler.go:528-539 | By number with a skip of 2^64-1 every header of a reply is the first one, and the reply never comes to an end of its own |
| `HeaderQueries.AdvanceHashReverse` | src/blockchain/smilobft/eth/handler.go:496-504 | Reports the header skip+1 parent links below with exactly the budget that is left, or that there is none exactly when the chain is too short or the budget does not cover the off-index headers, for every 64-bit skip |
| `HeaderQueries.AdvanceHashForward` | src/blockchain/smilobft/eth/handler.go:505-527 | Accepts the indexed header skip+1 above exactly when there is one and the present header is on the index; the accepted one has the present one skip+1 parent links below |
| `HeaderQueries.AdvanceNumber` | src/blockchain/smilobft/eth/handler.go:528-539 | Number mode moves by skip+1 with 64-bit wrap-around, and ends exactly on underflow |
| `HashLookups.HashLookup.Get` | src/blockchain/smilobft/core/evm.go:66-89 | Whatever is cached, a query answers what an uncached walk from the reference header would |
| `HashLookups.HashLookup.GetAll` | src/blockchain/smilobft/core/evm.go:66-89 | For every sequence of queries in any order, each answer is the uncached walk's |
| `HashLookups.WalkIsAncestor` | src/blockchain/smilobft/core/evm.go:66-89 | On linked headers the walk is the ancestor at that height, the zero hash at or above the reference, and the genesis' parent hash for the largest 64-bit number |
| `Branches.FindFork` | src/blockchain/smilobft/core/blockchain.go:2037-2081 | The two-branch walk ends at the highest common ancestor and the two lists are exactly the branches above it |
| `Branches.ForkHeightUnique` | src/blockchain/smilobft/core/blockchain.go:2057-2081 | There is only one such height |
| `Branches.TxDifference` | src/blockchain/smilobft/core/types/transaction.go:342-357 | Keeps, in order, exactly the members of the first list that are not in the second |
| `Branches.InDifference` | src/blockchain/smilobft/core/types/transaction.go:342-357 | Membership in the difference, in both directions |
| `Branches.DifferenceKeepsOrder` | src/blockchain/smilobft/core/types/transaction.go:342-357 | Order and repetitions are kept: the difference of two lists one after the other is the two differences one after the other, and without anything to remove it is the list |
| `BlockChains.LookupMeaning` | src/blockchain/smilobft/core/rawdb/accessors_indexes.go:59-66 | The specified lookup index has an entry exactly for each transaction on the head's ancestor chain, at the height of its block |
| `BlockChains.BlockChain.WriteTxLookupEntries` | src/blockchain/smilobft/core/rawdb/accessors_indexes.go:59-66 | Every transaction of the block points at its number and nothing else changes |
| `BlockChains.BlockChain.Insert` | src/blockchain/smilobft/core/blockchain.go:670-689 | The block becomes the head and its index entry; header and fast heads move exactly when the index did not list it yet |
| `BlockChains.BlockChain.InsertBranch` | src/blockchain/smilobft/core/blockchain.go:2093-2105 | Re-routes the new branch below its tip block by block and adds exactly its lookups |
| `BlockChains.BlockChain.DropLookups` | src/blockchain/smilobft/core/blockchain.go:2106-2111 | Deleting the difference of removed and added transactions leaves exactly the new branch's lookups |
| `BlockChains.BlockChain.Reorg` | src/blockchain/smilobft/core/blockchain.go:2003-2121 | Ends with the lookups of the new head's parent chain; the index is that chain for a branch of two or more blocks, and is cut above the old head for a branch of one |
| `BlockChains.Outweighs` | src/blockchain/smilobft/core/blockchain.go:1451-1465 | More total difficulty wins; at equal difficulty the lower block, and at equal height the tie-break |
| `BlockChains.BlockChain.WriteBlock` | src/blockchain/smilobft/core/blockchain.go:1350-1491 | A block without its parent at the height before changes nothing; any other is stored with its parent's total difficulty plus its own; more total difficulty makes it the head and less does not; at equal difficulty a lower block does and a higher one does not, and at equal height the node's own head stays, else the block wins exactly when it is the node's own or the coin says so; the status says which, a side block leaves head, index and lookups, and the invariant is kept |
| `BlockChains.BlockKeepsInv` | src/blockchain/smilobft/core/blockchain.go:1350-1491 | Every block write keeps: the lookup index is exactly the head chain's, the number index covers that chain, heads agree and total difficulties are right |
| `BlockChains.EveryBlockRun` | src/blockchain/smilobft/core/blockchain.go:1350-1491 | The same over every run of block writes from the genesis |
| `BlockChains.IndexExactIff` | src/blockchain/smilobft/core/blockchain.go:2093-2121 | From every state that runs can reach, after a new head the number index is exactly its chain if and only if, for an extension, nothing was listed above it, and for a branch, it is not a single block lower than the old head; so a branch of two or more blocks repairs a stale index |
| `BlockChains.StaleEntryExample` | src/blockchain/smilobft/core/blockchain.go:2112-2120 | A concrete chain and heavier block after which the index still lists the abandoned tip above the head |
| `BlockChains.StaleExtensionExample` | src/blockchain/smilobft/core/blockchain.go:1466-1480 | A concrete chain with such a stale entry and a block that extends its head, after which the index still lists a block above the head |
| `PoolResets.Reinject` | src/blockchain/smilobft/core/tx_pool.go:1112-1173 | Nothing is reinjected on an extension or when the heights differ by more than 64; a missing old head stops the reset; otherwise the result is the difference of the two branches above the highest common ancestor |
| `PoolResets.ReinjectedExactly` | src/blockchain/smilobft/core/tx_pool.go:1124-1172 | Those are exactly the transactions on the old head's chain and not on the new head's |
| `ChainIndexers.EveryInterleaving` | src/blockchain/smilobft/core/chain_indexer.go:241-428 | In every interleaving of new heads, reorganisations, checkpoints, begun, finished and failed sections, each stored section head past the checkpoint descends from the one before by exactly sectionSize parent links |
| `ChainIndexers.StepKeepsInv` | src/blockchain/smilobft/core/chain_indexer.go:241-428 | Each single step keeps that, with the chain free to change in between |
| `ChainIndexers.LastHeadDecides` | src/blockchain/smilobft/core/chain_indexer.go:421-428 | If the last stored section head is canonical, so is every one past the checkpoint |
| `ChainIndexers.AllHeadsCanonical` | src/blockchain/smilobft/core/chain_indexer.go:421-439 | The same for all stored heads at once |
| `ChainIndexers.VerifyKeepsInv` | src/blockchain/smilobft/core/chain_indexer.go:421-428 | Verification only drops sections and ends with none, with the checkpoint, or with a canonical last head |
| `ChainIndexers.ChainIndexer.ProcessSection` | src/blockchain/smilobft/core/chain_indexer.go:386-416 | Succeeds exactly when every header continues the one before and the backend accepts all; the new head then descends from the old one by exactly one section |
| `ChainIndexers.ChainIndexer.OnNewHead` | src/blockchain/smilobft/core/chain_indexer.go:274-297 | The number of known sections never drops; when it grows it is the largest number whose blocks and the required confirmations lie at or below the head, at least the checkpoint's, and from below the checkpoint only on a chain with its head; when it stays, no further section was confirmed past the checkpoint, or the chain does not have its head |
| `ChainIndexers.ChainIndexer.OnReorg` | src/blockchain/smilobft/core/chain_indexer.go:245-262 | The stored sections left lie below the reorganised block or within the checkpoint, their heads are unchanged, and no more are dropped than that takes; known sections likewise, and none when even the checkpoint is reorganised |
| `ChainIndexers.ChainIndexer.VerifyLastHead` | src/blockchain/smilobft/core/chain_indexer.go:421-428 | Drops sections from the last one down, each because its head is not what the chain lists, until one is or only the checkpoint's are left; the other heads stay |
| `ChainIndexers.ChainIndexer.BeginSection` | src/blockchain/smilobft/core/chain_indexer.go:318-333 | When more is known than stored, verifies and notes the section after the stored ones with the last stored head; otherwise changes nothing |
| `ChainIndexers.ChainIndexer.FinishSection` | src/blockchain/smilobft/core/chain_indexer.go:346-367 | When processing succeeded and the predecessor's head is still the one the work started from, the section becomes the last stored one with the new head, and lower heads and known sections stay; otherwise verifies again and forgets what was known beyond the stored sections |
| `ChainIndexers.ChainIndexer.IndexOne` | src/blockchain/smilobft/core/chain_indexer.go:318-367 | Begin, process and finish without interference: an unbroken, accepted section on top of what verification left is stored, one section more than before with its last block as head |
| `ChainIndexers.ChainIndexer.IndexAndQuery` | src/blockchain/smilobft/core/chain_indexer.go:318-439 | A query afterwards reports that count and head if the chain lists that block |
| `ChainIndexers.ChainIndexer.SetValidSections` | src/blockchain/smilobft/core/chain_indexer.go:470-482 | Exactly the heads at and above the new count are removed |
| `ChainIndexers.ChainIndexer.AddCheckpoint` | src/blockchain/smilobft/core/chain_indexer.go:128-141 | A checkpoint behind an older one or inside the stored sections is ignored; otherwise it becomes checkpoint and last stored section, the heads below stay |
| `ChainIndexers.ChainIndexer.Sections` | src/blockchain/smilobft/core/chain_indexer.go:433-439 | Reports the verified count and head; past the checkpoint every stored head is then canonical |
| `Heaps.Up` | src/blockchain/smilobft/core/tx_list.go:39-41 | Sifting up restores heap order and permutes the entries |
| `Heaps.Down` | src/blockchain/smilobft/core/tx_list.go:43-49 | Sifting down restores heap order and permutes the entries |
| `Heaps.Push` | src/blockchain/smilobft/core/tx_list.go:39-41 | Adds one entry to the multiset and keeps heap order |
| `Heaps.Pop` | src/blockchain/smilobft/core/tx_list.go:43-49 | Takes out a least entry |
| `Heaps.Remove` | src/blockchain/smilobft/core/tx_list.go:153-170 | Takes the entry at a position out and keeps heap order |
| `Heaps.Init` | src/blockchain/smilobft/core/tx_list.go:115-119 | Arranges any entries into a heap of the same multiset |
| `TxSortedMaps.TxSortedMap.Put` | src/blockchain/smilobft/core/tx_list.go:74-80 | The map gains the transaction; index and cache stay right |
| `TxSortedMaps.TxSortedMap.Forward` | src/blockchain/smilobft/core/tx_list.go:85-99 | Exactly the nonces below the threshold leave, listed in order |
| `TxSortedMaps.TxSortedMap.Filter` | src/blockchain/smilobft/core/tx_list.go:103-124 | Exactly the matching transactions leave, each once |
| `TxSortedMaps.TxSortedMap.Cap` | src/blockchain/smilobft/core/tx_list.go:128-149 | Exactly the lowest nonces up to the limit stay, and the cache stays sorted |
| `TxSortedMaps.TxSortedMap.Remove` | src/blockchain/smilobft/core/tx_list.go:153-170 | The nonce leaves if it was there |
| `TxSortedMaps.TxSortedMap.Ready` | src/blockchain/smilobft/core/tx_list.go:179-194 | Takes the longest run of consecutive nonces from the smallest, or nothing when that is above the start |
| `TxSortedMaps.TxSortedMap.Flatten` | src/blockchain/smilobft/core/tx_list.go:204-217 | The content in nonce order, from a cache or not |
| `TxLists.TxList.Add` | src/blockchain/smilobft/core/tx_list.go:252-273 | Accepts exactly on a free nonce or when the new price is higher and reaches the old one raised by the percentage, rounded down; returns what was replaced, and raises the caps |
| `TxLists.AcceptsIff` | src/blockchain/smilobft/core/tx_list.go:252-262 | The same in products, without division, for the rule that the pool uses |
| `TxLists.TxList.Filter` | src/blockchain/smilobft/core/tx_list.go:291-315 | Exactly the transactions above the cost or the gas limit are removed, whether scanned or short-circuited; a strict list also gives up everything behind the lowest removed nonce |
| `TxLists.FilterPartitions` | src/blockchain/smilobft/core/tx_list.go:291-315 | The two results and the remainder partition the list |
| `TxLists.FilterKeepsContiguous` | src/blockchain/smilobft/core/tx_list.go:291-315 | On a contiguous strict list the remainder is contiguous |
| `TxLists.CapKeepsContiguous` | src/blockchain/smilobft/core/tx_list.go:319-321 | Capping leaves a contiguous list |
| `TxLists.RemoveKeepsContiguous` | src/blockchain/smilobft/core/tx_list.go:326-337 | Strict removal leaves a contiguous list |
| `TxLists.ForwardKeepsContiguous` | src/blockchain/smilobft/core/tx_list.go:278-280 | Forwarding leaves a contiguous list |
| `TxLists.TxList.Remove` | src/blockchain/smilobft/core/tx_list.go:326-337 | Removes the nonce and, on a strict list, hands back exactly what was behind it |
| `PricedLists.PriceKeyOrders` | src/blockchain/smilobft/core/tx_list.go:374-384 | One integer key orders transactions as the price heap does: cheaper first, then the higher nonce |
| `PricedLists.TxPricedList.Put` | src/blockchain/smilobft/core/tx_list.go:415-417 | The heap gains exactly one entry and covers the transaction |
| `PricedLists.TxPricedList.Removed` | src/blockchain/smilobft/core/tx_list.go:422-437 | Up to a quarter of stale entries they are only counted; beyond that the heap holds exactly the live transactions again; it keeps an entry for every live transaction |
| `PricedLists.TxPricedList.Cap` | src/blockchain/smilobft/core/tx_list.go:441-468 | Returns exactly the live remote transactions below the price; once they are gone the heap covers everything again |
| `PricedLists.TxPricedList.Underpriced` | src/blockchain/smilobft/core/tx_list.go:472-494 | For a remote transaction: true exactly when something is live and nothing live is cheaper; never for a local one |
| `PricedLists.TxPricedList.Discard` | src/blockchain/smilobft/core/tx_list.go:498-521 | Returns as many heap entries of live remote transactions as asked, each at most as often as the heap holds it, or entries of all of them, none dearer than one that stays and of equally cheap ones the higher nonces |
| `PricedLists.EntriesAreTxs` | src/blockchain/smilobft/core/tx_list.go:498-521 | From a heap without repeated entries the entries returned are as many transactions |
| `PoolViews.Disjoint` | src/blockchain/smilobft/core/tx_pool.go:899-944 | A nonce is never both executable and queued, so removal by nonce finds the right transaction |
| `PoolViews.AcctRemoveLoses` | src/blockchain/smilobft/core/tx_pool.go:899-944 | Removal loses exactly the transaction at that nonce |
| `TxPools.TxPool.ValidateTx` | src/blockchain/smilobft/core/tx_pool.go:531-619 | Reports the first admission rule violated in the fixed order, or none when all hold; the rules compare price, encoded size, value, gas, sender, nonce, data, balance, minimum funds, SmiloPay and intrinsic gas with the head and the configuration |
| `TxPools.AdmissibleIff` | src/blockchain/smilobft/core/tx_pool.go:531-619 | No rule objects exactly when price, size, value, gas, signature, nonce, data, balance, minimum funds, SmiloPay and intrinsic gas are as listed, each comparison and constant written out |
| `TxPools.ErrorMeans` | src/blockchain/smilobft/core/tx_pool.go:531-619 | What each error says about the transaction, written out |
| `TxPools.TxPool.EnqueueTx` | src/blockchain/smilobft/core/tx_pool.go:711-737 | Queues unless the slot's holder is not cheaper enough; lookup and price heap follow |
| `TxPools.TxPool.RemoveTx` | src/blockchain/smilobft/core/tx_pool.go:899-944 | Only that transaction is lost; executable ones behind it go back to the queue and the virtual nonce drops to its nonce |
| `TxPools.TxPool.SetIfLower` | src/blockchain/smilobft/core/tx_noncer.go:69-80 | The account's virtual nonce becomes the smaller of the two, and no other moves |
| `TxPools.TxPool.SetGasPrice` | src/blockchain/smilobft/core/tx_pool.go:431-440 | Exactly the remote transactions below the new price are dropped |
| `TxPools.TxPool.Add` | src/blockchain/smilobft/core/tx_pool.go:628-706 | Known transactions are refused, then those that violate a rule, with the first such rule, and neither changes anything; any other is filed as under Admit; a local transaction that succeeds makes its sender local, except exactly when its slot was executable before the call and every evicted transaction of that sender has a higher nonce |
| `TxPools.TxPool.Admit` | src/blockchain/smilobft/core/tx_pool.go:645-705 | A full pool refuses a remote newcomer exactly when nothing is cheaper, and then changes nothing; otherwise it evicts the cheapest remote ones, no more than needed, after which each account has exactly its executable transactions below all its evicted nonces executable and the rest queued; then the newcomer is taken exactly when its slot is free or the price bump is met, and exactly it is new and what it replaced is gone |
| `TxPools.FiledSlot` | src/blockchain/smilobft/core/tx_pool.go:645-697 | For any pool, the newcomer's slot is executable after the call exactly when it was before and no evicted transaction of its sender has that nonce or a lower one |
| `PoolEvictions.SparedIsEvicted` | src/blockchain/smilobft/core/tx_pool.go:656-661 | After any number of evictions each transaction is executable, queued or gone: executable exactly when it was and is below all evicted nonces of its sender, gone exactly when it was evicted |
| `PoolEvictions.RemovedKeeps` | src/blockchain/smilobft/core/tx_pool.go:899-944 | One removal leaves exactly the executable nonces of other accounts and the lower ones of its own |
| `TxPools.FiledWithRoom` | src/blockchain/smilobft/core/tx_pool.go:645-705 | While the pool is not full nothing is evicted, success is exactly that the slot takes the newcomer, and the slot is executable after the call exactly when it was before |
| `PoolExamples.LocalReplacementExample` | src/blockchain/smilobft/core/tx_pool.go:664-697 | A concrete pool in which a local transaction replaces an executable one and its sender is still not local |
| `TxPools.TxPool.PromoteTx` | src/blockchain/smilobft/core/tx_pool.go:755-791 | Makes a transaction executable, replacing or discarding by the price bump, and sets nonce and heartbeat |
| `TxPools.TxPool.PromoteExecutables` | src/blockchain/smilobft/core/tx_pool.go:1197-1257 | Each named account: of what it can pay for, the maximal run from its virtual nonce becomes executable; afterwards everything queued is affordable and within the block gas limit, nothing queued is next in line, and a remote account has no more than its limit queued; a transaction is lost only if it is unaffordable, or its account is remote and its queue full of lower nonces; local accounts lose nothing affordable and other accounts nothing at all; the result is exactly what became executable |
| `PoolPromotions.PayableStays` | src/blockchain/smilobft/core/tx_pool.go:1207-1243 | What an account can pay for stays, unless its limited queue is full of lower nonces |
| `PoolPromotions.Sift` | src/blockchain/smilobft/core/tx_pool.go:1207-1243 | How any queue falls apart: exactly the nonces below the state's are too old, exactly the unaffordable of the rest are dropped, the longest run that reaches down to the virtual nonce is ready, and of what waits only the lowest nonces within the limit stay |
| `PoolPromotions.SiftPartitions` | src/blockchain/smilobft/core/tx_pool.go:1207-1243 | Every queued transaction goes exactly one of these ways, and nothing else comes out |
| `PoolPromotions.SiftsFromNext` | src/blockchain/smilobft/core/tx_pool.go:1207-1243 | When everything queued is at or above the virtual nonce, nothing is too old and what is ready is the maximal run from that nonce |
| `PoolPromotions.PromotesOk` | src/blockchain/smilobft/core/tx_pool.go:1197-1257 | A promoted account again has exactly the nonces from the state's to the virtual one executable, and the rest at or above |
| `PoolPromotions.PromotesSettles` | src/blockchain/smilobft/core/tx_pool.go:1197-1257 | Afterwards everything queued is payable, within the limit, and does not continue the run |
| `PoolPromotions.PromotesTwice` | src/blockchain/smilobft/core/tx_pool.go:1197-1257 | Promoting twice is promoting once |
| `PoolPromotions.PromotesLoses` | src/blockchain/smilobft/core/tx_pool.go:1207-1243 | An account loses exactly what it cannot pay for and what is over the limit |
| `TxPools.TxPool.TruncatePending` | src/blockchain/smilobft/core/tx_pool.go:1262-1344 | Above the limit: one level for all, at least the guaranteed slots; locals and accounts within the guaranteed slots untouched; every other account keeps its lowest nonces up to the level; one level higher would not fit; the total fits, or no remote account has more than the guaranteed slots. Within the limit nothing changes |
| `TxPools.TxPool.LowerTo` | src/blockchain/smilobft/core/tx_pool.go:1287-1315 | Lowering all offenders together by one stops at the first level that fits or at the floor |
| `TxPools.TxPool.DropLast` | src/blockchain/smilobft/core/tx_pool.go:1321-1339 | Takes exactly the highest executable nonce and lowers the virtual nonce to it |
| `PoolLevels.LevelIsLowest` | src/blockchain/smilobft/core/tx_pool.go:1262-1344 | What a cut account keeps are its lowest nonces, as many as the level or all of them |
| `PoolLevels.Undershoot` | src/blockchain/smilobft/core/tx_pool.go:1293-1341 | The total ends less than the number of cut accounts below the limit |
| `TxPools.TxPool.TruncateQueue` | src/blockchain/smilobft/core/tx_pool.go:1347-1389 | Above the limit: locals and executable ones untouched, each account keeps its lowest nonces, exactly the limit is left or only locals are, and an account loses something only when every remote account active after it lost everything |
| `PoolQueues.LaterGoFirst` | src/blockchain/smilobft/core/tx_pool.go:1356-1388 | The same for two heartbeats as recorded; an account without one counts as the earliest |
| `PoolQueues.NewerDrainedFirst` | src/blockchain/smilobft/core/tx_pool.go:1356-1388 | Of any two remote accounts with one transaction each and room for one, the one active less recently keeps its own |
| `PoolQueues.NewestDrainedExample` | src/blockchain/smilobft/core/tx_pool.go:1356-1388 | The same for two concrete heartbeats |
| `TxPools.TxPool.DropTail` | src/blockchain/smilobft/core/tx_pool.go:1381-1387 | Removing from the back leaves the lowest nonces |
| `TxPools.TxPool.SyncNonces` | src/blockchain/smilobft/core/tx_pool.go:1093-1097 | Setting every virtual nonce from the last executable transaction moves none of them |
| `TxPools.TxPool.RunReorg` | src/blockchain/smilobft/core/tx_pool.go:1074-1097 | Every named account is promoted, the returned transactions are exactly those that became executable and exactly their senders get a new heartbeat; then the executable lists are cut to one level and the queues drained, each as specified or not at all; the virtual nonces stay; both limits hold, or only what they protect is left; nothing is known that was not before |
| `TxPools.TxPool.Run` | src/blockchain/smilobft/core/tx_pool.go:628-1389 | Under one head, every sequence of additions, removals, promotions, truncations, background runs and price changes keeps: the lookup is exactly pending and queue, executable nonces are exactly from the state's to the virtual one, queued ones are at or above it, no list is empty, the price heap covers all, and the pool is within its limit or holds at most one remote transaction |
| `PoolSizes.GainedFits` | src/blockchain/smilobft/core/tx_pool.go:645-660 | Making room and then taking one transaction in keeps that bound, also when locals have filled the pool beyond its limit |
| `PoolSizes.NoLocalsFit` | src/blockchain/smilobft/core/tx_pool.go:645-660 | Without local senders the bound means that the limit is never exceeded |
| `ReorgSchedulers.EveryRun` | src/blockchain/smilobft/core/tx_pool.go:979-1046 | Every interleaving of requests, ending runs and a shutdown keeps: each run was given exactly its batch, all but the current run have ended, and only ended runs and a shutdown have closed channels |
| `ReorgSchedulers.StepKeepsInv` | src/blockchain/smilobft/core/tx_pool.go:979-1046 | Each single step keeps that |
| `ReorgSchedulers.OneActive` | src/blockchain/smilobft/core/tx_pool.go:991-1002 | At most one run is active |
| `ReorgSchedulers.ClosedMeansServed` | src/blockchain/smilobft/core/tx_pool.go:1004-1044 | A requester's channel is closed only after a run whose batch contains the request, or by the shutdown |
| `ReorgSchedulers.ServedInOrder` | src/blockchain/smilobft/core/tx_pool.go:979-1046 | The batches one after the other are the requests in order: each is in exactly one |
| `ReorgSchedulers.NextRunServes` | src/blockchain/smilobft/core/tx_pool.go:991-1035 | Once the active run is seen to have ended, a waiting request is in a launched run |
| `ReorgSchedulers.IdleRequestStarts` | src/blockchain/smilobft/core/tx_pool.go:991-1032 | While no run is active, a reset or a promotion starts a run that was given it, and an announcement starts none but is kept |
| `ReorgSchedulers.EveryoneReleased` | src/blockchain/smilobft/core/tx_pool.go:1033-1044 | The end of a run closes the channel of everybody waiting for it, and a shutdown that of everybody |
| `ReorgSchedulers.CollectReset` | src/blockchain/smilobft/core/tx_pool.go:1005-1013 | A batch's reset goes from the first old head to the last new head |
| `ReorgSchedulers.CollectDirty` | src/blockchain/smilobft/core/tx_pool.go:1015-1023 | A batch's accounts are exactly those asked for |
| `ReorgSchedulers.CollectEvents` | src/blockchain/smilobft/core/tx_pool.go:1025-1032 | A batch announces, for each account and nonce, the latest transaction |
| `ReorgSchedulers.ResetsUnbroken` | src/blockchain/smilobft/core/tx_pool.go:1005-1013 | If the requested resets form an unbroken chain, so do the coalesced ones, with the same two ends |
| `ReorgSchedulers.EveryReset` | src/blockchain/smilobft/core/tx_pool.go:328-351 | In every run of head changes, other requests, ending runs and a shutdown, the scheduler keeps its invariant, and the resets that the launched runs were given, followed by the one that waits, form an unbroken chain from the first head, which before a shutdown ends at the current one |
| `ReorgSchedulers.EventLoop.OnChainHead` | src/blockchain/smilobft/core/tx_pool.go:346-351 | A new head asks for a reset from the remembered head and becomes the remembered one; an event without a block changes nothing |
| `ReorgSchedulers.ReorgLoop.Turn` | src/blockchain/smilobft/core/tx_pool.go:990-1046 | One turn of the loop makes the specified step and keeps the invariant |
| `ReorgSchedulers.ReorgLoop.Launch` | src/blockchain/smilobft/core/tx_pool.go:991-1002 | Launches exactly when the waiting batch calls for a run and none is active; the run is given exactly what that batch asked for under its requesters' channel, and whoever asks afterwards gets another one |
| `StateTransitions.IntrinsicGas` | src/blockchain/smilobft/core/state_transition.go:91-121 | The exact intrinsic cost, or an error exactly when it does not fit in 64 bits |
| `StateTransitions.IntrinsicByByte` | src/blockchain/smilobft/core/state_transition.go:91-121 | Without data the cost is 21000, or 53000 for a creation since homestead; a zero byte adds 4 and any other 68 |
| `StateTransitions.StateTransition.BuyGas` | src/blockchain/smilobft/core/state_transition.go:165-187 | Takes the deposit from sender and pool, or reports which funds are short and changes nothing |
| `StateTransitions.StateTransition.PreCheck` | src/blockchain/smilobft/core/state_transition.go:189-200 | Nonce errors exactly on a checked mismatch, otherwise as the deposit |
| `StateTransitions.StateTransition.UseGas` | src/blockchain/smilobft/core/state_transition.go:155-162 | Deducts only when covered |
| `StateTransitions.StateDB.Transfer` | src/blockchain/smilobft/core/evm.go:93-102 | A covered amount moves from one account to the other and nothing else does; an uncovered one does not move |
| `StateTransitions.StateTransition.RefundGasAndPay` | src/blockchain/smilobft/core/state_transition.go:326-343 | Exactly the sender gains the price of the gas left after the capped refund and exactly the miner that of the rest, in products; that gas returns to the pool |
| `StateTransitions.StateTransition.RefundGasSmiloVersion` | src/blockchain/smilobft/core/state_transition.go:346-369 | Exactly the sender gains the price of the gas used before the refund; the gas left after it returns to the pool |
| `StateTransitions.StateTransition.Settled` | src/blockchain/smilobft/core/state_transition.go:307-318 | The ordinary settlement gives back exactly the deposit; the Smilo one exactly the price of the unused gas less |
| `StateTransitions.StateTransition.TransitionDb` | src/blockchain/smilobft/core/state_transition.go:205-324 | Succeeds exactly when nonce, funds, pool, intrinsic gas and transfer allow; then the sender's nonce rises by one and no other moves; an ordinary message uses the intrinsic gas and what its code burned, less a refund of at most half, and what it uses leaves the pool; without transfers the sender pays that gas times its price, the miner gains it and no other balance moves, or on a Smilo refund the sender loses the price of the gas left over; a vault message outside the group costs the whole deposit; the total balance never grows |
| `StateTransitions.StateTransition.VaultOutcomeAt` | src/blockchain/smilobft/core/state_transition.go:221-318 | A vault message that the node can read is charged its intrinsic gas less a refund of at most half, from the pool and by price from the sender to the miner, or on a Smilo settlement the sender loses the price of the rest of its gas; no other balance moves |
| `StateTransitions.OrdinaryExample` | src/blockchain/smilobft/core/state_transition.go:316-339 | A concrete message that leaves its sender 79000 and the miner 21000 |
| `StateTransitions.StateTransition.RunVm` | src/blockchain/smilobft/core/vm/evm.go:471-505 | A creation that is not refused for lack of balance raises the sender's nonce whether or not its code fails; a call does not; pool, balances and used gas follow from the run |
| `StateTransitions.SmiloLossExample` | src/blockchain/smilobft/core/state_transition.go:346-369 | A concrete message after which the total balance is lower by the price of its unused gas |
| `StateTransitions.ApplyTransaction` | src/blockchain/smilobft/core/state_processor.go:102-177 | Succeeds exactly when the price rule, the signature and the message allow; the receipt's gas and the pool account for each other, cumulative gas adds up, it says failed exactly when the code of an ordinary message did, and the sender's nonce rises by one |
| `StateTransitions.Process` | src/blockchain/smilobft/core/state_processor.go:59-97 | Over a block: used gas plus what is left never exceeds the limit and equals it without vault messages; cumulative gas is the running sum; the total balance never grows, and is kept by ordinary settlements; every account's nonce rises by exactly the number of messages it sent, and every checked message carried the nonce that this gives |
| `StateTransitions.NoncesRunOn` | src/blockchain/smilobft/core/state_processor.go:59-97 | In a processed block two checked messages of one sender carry nonces as far apart as the number of messages it sent from the one to the other |
| `StateTransitions.GasPool.AddGas` | src/blockchain/smilobft/core/gaspool.go:29-36 | Adds exactly; its overflow is excluded at every call |
| `StateTransitions.GasPool.SubGas` | src/blockchain/smilobft/core/gaspool.go:39-45 | Subtracts only when covered |
| `GasLimits.StepIsBounded` | src/blockchain/smilobft/core/block_validator.go:122-154 | A block's limit differs from its parent's by strictly less than a 1024th and does not fall below 180000000 under such a ceiling |
| `GasLimits.FollowsUsage` | src/blockchain/smilobft/core/block_validator.go:122-154 | Inside the band a block that used two thirds of its gas raises the limit, one that used clearly less does not, and an empty one lowers it |
| `GasLimits.MoreUsageMoreLimit` | src/blockchain/smilobft/core/block_validator.go:122-154 | More gas used never gives a lower limit |
| `GasLimits.RunEntersBand` | src/blockchain/smilobft/core/block_validator.go:122-154 | Every run of blocks is within floor and ceiling after at most as many blocks as its distance, and stays there |
| `DerivationPaths.ParseDerivationPath` | src/blockchain/smilobft/accounts/hd.go:71-121 | The loop computes the recursive parser, component by component, with its errors |
| `DerivationPaths.RelativePath` | src/blockchain/smilobft/accounts/hd.go:71-121 | Every non-empty path printed without the leading "m/" is read as that path below m/44'/20200101'/0'/0 |
| `DerivationPaths.BadStarts` | src/blockchain/smilobft/accounts/hd.go:74-93 | An empty path and one that starts with a separator are ambiguous, and "m" alone is empty |
| `DerivationPaths.ComponentRange` | src/blockchain/smilobft/accounts/hd.go:100-117 | Plain numbers are accepted up to 2^32-1 and hardened ones up to 2^31-1, and others refused as out of range |
| `DerivationPaths.BlanksIgnored` | src/blockchain/smilobft/accounts/hd.go:95-103 | Blanks around a component do not matter |
| `DerivationPaths.ScanAnnounced` | src/blockchain/smilobft/accounts/hd.go:105-108 | After 0b, 0o or 0x digits are read in base 2, 8 or 16 as the number they stand for |
| `DerivationPaths.ScanOctal` | src/blockchain/smilobft/accounts/hd.go:105-108 | After a leading zero digits are octal |
| `DerivationPaths.ScanDecimal` | src/blockchain/smilobft/accounts/hd.go:105-108 | Other digits are decimal, and a minus sign negates |
| `DerivationPaths.ScanSeparated` | src/blockchain/smilobft/accounts/hd.go:105-108 | An underscore between digits is skipped |
| `DerivationPaths.PrintDerivationPath` | src/blockchain/smilobft/accounts/hd.go:125-139 | The loop computes the recursive printer |
| `DerivationPaths.ComponentRoundTrip` | src/blockchain/smilobft/accounts/hd.go:71-139 | Every 32-bit component, hardened or not, is parsed back from its printed form |
| `DerivationPaths.RoundTrip` | src/blockchain/smilobft/accounts/hd.go:71-139 | Parsing the printed form gives the path back if and only if the path is not empty |
| `DerivationPaths.PrintAfterParse` | src/blockchain/smilobft/accounts/hd.go:71-139 | Printing an accepted string parses to the same path, and doing it twice changes nothing |
| `DerivationPaths.PrintInjective` | src/blockchain/smilobft/accounts/hd.go:125-139 | Different paths print differently |

## Left out

- Head changes in the pool: `demoteUnexecutables` and the state part of `reset`; reinjected transactions can leave gaps, so the pool invariant is stated for runs under one head, and of `reset` only the branch walk is modelled.
- TxPools.TxPool.RunReorg: models the run without a reset request; events, metrics and the journal are not part of this model.
- TxPools.TxPool.ValidateTx: the encoded size and whether a sender can be recovered are fields of the transaction; encoding and signatures are not modelled.
- HeaderChains.HeaderChain.WriteHeader: reads the parent's total difficulty from the database; with the parent cached the code would also take a header whose number does not follow its parent's, which callers rule out by validating headers first.
- PricedLists.TxPricedList.Discard: counts heap entries, as the code does; a transaction removed and added again can have two.
- TxPools.TxPool.Add: the price bump is taken as an unbounded percentage, without the conversion to a signed 64-bit number.
- Pool lists: inside `TxPool` a list is its nonce-to-transaction map; the classes `TxSortedMap` and `TxList` are proved to behave as such maps, but the pool does not hold the objects, so sharing of one list object is not captured.
- TxPools.TxPool.TruncatePending: the priority queue of offenders is any choice of a longest list, which is what it pops; its own heap is not modelled.
- TxPools.TxPool.TruncateQueue: sorting by heartbeat and taking from the end is any choice of a most recently active account.
- PricedLists.TxPricedList.Removed: the count of stale entries only decides when to rebuild and is not claimed to be exact.
- Nonces of 2^64-1 and block numbers of 2^64-1 are excluded by the types; other 64-bit wrap-around is modelled where the code relies on it.
- ReorgSchedulers.ReorgLoop: channel operations are atomic steps and a request is a value, so the mutation of a request object shared with its sender is not captured.
- ChainIndexers.ChainIndexer: child indexers, throttling and 64-bit overflow of section arithmetic are not modelled.
- BlockChains.BlockChain.WriteBlock: blocks add difficulty and repeat no transaction of their own chain, which the engine and the state processor check before; receipts, state tries, logs, side chains, fast sync and `writeKnownBlock` are not part of this model.
- HeaderChains.HeaderChain: `InsertHeaderChain`, `SetHead` and the caches of headers and numbers are not modelled.
- HeaderChains.HeaderChain.GetAncestor: called with the zero hash it would take a missing index entry for a match; no caller does.
- StateTransitions.StateTransition.TransitionDb: the virtual machine is a list of transfers, a burn, a refund counter and an error; SmiloPay balances are a parameter. Nonces of contracts, created or creating, are not modelled.
- StateTransitions.Process: hard-fork mutations, block rewards, bloom filters and logs are not part of this model.
- PoolResets.Reinject: the depth of a reorganisation is computed exactly, not in floating point, which agrees below 2^53.
- DerivationPaths.ParseDerivationPath: strings are sequences of Unicode characters; invalid UTF-8 is not modelled. Numbers are scanned as big integers are with base detection.
- Journals, metrics, logging, feeds, subscriptions, mutexes beyond step atomicity, RPC and configuration loading.
