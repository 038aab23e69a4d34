# Verified models of a blockchain node

Dafny models of the hardest parts of a go-ethereum based node (TomoChain), with proofs. Every theorem is a
for-all statement: over every interleaving, every run from genesis, every input. Where a property one would expect
turns out false of the code, the model keeps the code's behaviour, shows a concrete input on which the property fails,
and proves the exact condition under which it holds.

What is modelled, and the main result of each part:

- **Binary Merkle tree hasher** (`Bmt*.dfy`). The concurrent hasher of `bmt/bmt.go` is an interleaving machine: one
  goroutine per pair of segments climbs the tree, meeting the others at nodes whose counters are toggled atomically,
  while `Sum` and `finalise` run beside them. In every interleaving it produces exactly one result, the hash of the
  recursive reference hasher, in a bounded number of steps; when the result is there everyone has finished, and the
  tree can be used again exactly if no node's 32-bit counter was about to wrap around (a negative odd counter has
  remainder -1 in Go, so it no longer pairs callers up). `Write` leaves the same segments however its input is cut
  into pieces, so that `NewTree`, any writes and any interleaving together give the reference hash of the data.
- **Common ancestors** (`ChainStore.dfy`). The three walks that look for a common ancestor find the same, highest one,
  and collect exactly the paths down to it.
- **Header chain** (`HeaderChain.dfy`). After every run of `WriteHeader` from genesis the canonical map is defined on
  exactly 0..head and is the head's ancestor chain. Which headers are stored, and which of them is the head, with all
  coins, is given by the order in which they were written. The cache of `GetTd` is transparent exactly for hashes that
  are not cached and lookups with the right number; a fresh chain shows a lookup that answers differently the second
  time.
- **Block chain** (`BlockChain.dfy`). After every run of `WriteBlockWithState` exactly the blocks with known parents
  are stored, the head is the first of those that are best by total difficulty and number, the canonical hashes up to
  the head are its ancestors, and the transaction index is a scan of that chain. The canonical hashes are defined on
  exactly 0..m, where m is the highest number that any head has had, so the numbers above the head are free of entries
  exactly if the head is as high as ever.
- **Event feed** (`Feed.dfy`). `Send` delivers exactly once to every subscription that does not ask to leave, at most
  once to one that does, over two aliased slices. In every interleaving the requests that reach a `Send` are for
  subscriptions it has, removing one always finds its channel, and the lists hold what is subscribed and not
  cancelled.
- **Transaction lists** (`TxMap.dfy`, `Ordering.dfy`, `TxSortedMap.dfy`, `TxList.dfy`, `PricedList.dfy`). The
  redundant forms of an account's list (map, nonce heap, sorted cache) stay in step with a plain nonce map; strict
  lists stay free of gaps. The cached gas bound of a list is right throughout its life, the cost bound is not:
  `Filter` lowers it below transactions that it keeps on a TRC21 issuer's credit. At any point of a list's life the
  short cut of `Filter` equals a full scan exactly if no issuer is asked for more than it has and no transaction once
  found on credit, and now the account's own, costs more than the account has. The priced list's stale counter drifts
  by nothing but what its callers report. When a transaction replaces another is stated in their prices, and over a
  list's life the prices at a nonce are a chain of bids.
- **Prices over the pool** (`PricedPool.dfy`, `PricedAdd.dfy`). In every run of the pool's operations a pooled
  transaction has an entry in the price heap, unless `promoteSpecialTx` put it there, or a sweep took it out, and it
  has not been entered again nor the heap rebuilt since. `add` and `removeTx` are proved to be such operations. A full
  pool discards the cheapest remote transactions that have an entry. That frees as many places as transactions are
  named exactly if none is named twice, which happens after one has left the pool and come back, and the size of the
  pool after `add` follows.
- **Transaction pool** (`PoolState.dfy`, `PoolMoves.dfy`, `PoolAdd.dfy`, `PoolReset.dfy`, `TxPool.dfy`,
  `Eviction.dfy`, `QueueLimit.dfy`). What every operation does to the lists, the index and the pending nonces is given
  exactly. All keep the index equal to the disjoint union of pending and queued transactions, each under its sender
  and nonce; only `promoteSpecialTx` can break this, exactly if the sender has a queued transaction with that nonce.
  With the chain state fixed, adding, removing, promoting and evicting keep every pending list that is the interval
  from chain nonce to pending nonce. `reset` does not: reinjecting nonce 3 but not 4 below pending 5 and 6 leaves {3,
  5, 6}. Where the limits take nothing, an account ends a reset as an interval exactly if, counting the run that
  promotion adds, the transaction with the chain nonce stays and nothing that stays lies above a missing nonce, or it
  does not stay and no nonce has been handed out; for an account that is cut at the end the exact condition is given
  too. Eviction is water-filling to one level. The queue's limit takes from the accounts with the latest heartbeat
  first, although the source's own comment speaks of the oldest; the comment holds exactly if nothing has to go, if
  the local accounts alone fill the queue, or if all remote heartbeats are equal.
- **Chain indexer** (`Indexer.dfy`). Two threads interleave, each single access to the shared counter being a step,
  and section heads exist for exactly the stored sections, each one section above the previous one, until a failed
  backend reset clears the index, which it does without the lock, beside a running `newHead`. From there on no
  interleaving of the two wraps the unsigned counter or leaves a wrong index exactly if the count is zero when the
  second one begins; and if that is so at every such meeting, every state of every run is sound. A reorg drops exactly
  the sections that have a block not below it, and a pass of the update loop stores a section exactly if it continues
  the index.
- **Masternodes** (`Shuffle.dfy`, `Rewards.dfy`, `Sums.dfy`). The second-validator shuffle is a bijection between the
  random draws and the single cycles; the reward splits never pay out more than there is, with exact bounds on what
  rounding loses.
- **Gas** (`Gas.dfy`). When a message and a block go through, and with which error they do not, is given exactly, and
  what every account has afterwards. Over a block, gas in the pool plus gas used is the gas limit, the pool never
  overflows, Ether changes by exactly the fees that token issuers pay, and receipts' gas is recovered from cumulative
  gas.

Environment: the base hash of the Merkle tree, the EVM, random draws, the chain state's nonces and balances, the
verdicts of transaction validation and of the signer check in `add`, the accounts' heartbeats, and the coin toss of the
header fork choice are parameters that range over all values. `container/heap`, `sort`, the priority queue and LRU
caches are modelled by what they guarantee. Databases are maps. `dafny verify dfyconfig.toml` covers the whole project.

## Model

| member | source | states |
|---|---|---|
| BmtReference.NewRefHasher | bmt/bmt_r.go:39-55 | the doubling loop ends at a span from which every chunk up to the capacity splits as the reference requires |
| BmtReference.Halve | bmt/bmt_r.go:67-85 | the halving loop ends at a span below the length, and loses no width it needs, so the recursion terminates |
| BmtReference.SpanIrrelevant | bmt/bmt_r.go:59-85 | the reference hash does not depend on the span it starts with, as long as that covers the data |
| BmtLevels.LevelIsReference | bmt/bmt.go:462-493 | by induction on the level: pairing nodes bottom up, an unpaired last node passed on unhashed, gives at every level the reference hash of each stretch of data |
| BmtLevels.TreeHashIsReference | bmt/bmt.go:253-275 | for every data length up to capacity the level-by-level tree hash equals the reference hasher's result |
| BmtTree.Depth | bmt/bmt.go:520-525 | the depth is the smallest whose leaves hold all segments in pairs |
| BmtTree.LeafForEveryPair | bmt/bmt.go:253-275 | every pair of segments has a leaf in the tree |
| BmtTree.TogglePairsUpIff | bmt/bmt.go:508-510 | an even 32-bit counter makes the first of two callers wait and the second go on if and only if it is not negative |
| BmtTree.ToggleWrapsAround | bmt/bmt.go:508-510 | a counter at its last usable even value wraps to one on which callers no longer pair up |
| BmtRun.ValIsLevel | bmt/bmt.go:462-493 | the value a node should get in the concurrent tree is the corresponding entry of the level-by-level tree |
| BmtSteps.DepositKeepsInv | bmt/bmt.go:462-469 | writing a hash into a parent's field keeps the invariant of all goroutines and nodes |
| BmtSteps.ToggleKeepsInv | bmt/bmt.go:470-472 | the atomic toggle lets exactly the second of the two callers through |
| BmtSteps.CombineKeepsInv | bmt/bmt.go:473-491 | the goroutine that goes on combines both sides' final values |
| BmtSteps.GoKeepsInv | bmt/bmt.go:462-493 | every step of a goroutine keeps the invariant |
| BmtTheorem.LaunchKeepsInv | bmt/bmt.go:441-460 | starting the goroutine of a pair keeps the invariant |
| BmtTheorem.FinaliseKeepsInv | bmt/bmt.go:529-546 | each step of finalise, beside running goroutines, keeps the invariant |
| BmtTheorem.StepKeepsInv | bmt/bmt.go:292-318 | every step of caller or goroutine keeps the invariant |
| BmtTheorem.Progress | bmt/bmt.go:292-318 | until everything has ended some step is possible: no deadlock |
| BmtTheorem.RankDecreases | bmt/bmt.go:462-493 | every step decreases a measure, so no run is infinite |
| BmtTheorem.OneResult | bmt/bmt.go:462-493 | at the end exactly one result has been sent, and it is the value at the top |
| BmtTheorem.ResultMeansQuiescent | bmt/bmt.go:306-307 | whoever sends the result is the last: when Sum receives it, all other goroutines have returned, so releasing the tree at once is safe |
| BmtTheorem.CountersAtRest | bmt/bmt.go:508-510 | at the end every node has been toggled twice or not at all, so all counters are even |
| BmtTheorem.ReleaseTree | bmt/bmt.go:424-439 | the walk up from the last leaf clears the marks on its path and nothing else |
| BmtTheorem.ReusableIff | bmt/bmt.go:424-439 | the released tree is as clean as a new one if and only if no toggled counter was at its last usable value |
| BmtTheorem.EveryRunComputesReference | bmt/bmt.go:292-318 | every interleaving sends nothing but the reference hash, never twice, is bounded, can go on until it ends, and then has sent it |
| BmtTheorem.EveryRunLeavesTreeReusable | bmt/bmt.go:424-439 | once the result has been received and the tree released, toggles are even and all marks cleared; the tree is reusable exactly under the counter condition |
| BmtWriter.PushRest | bmt/bmt.go:345-372 | the loop of Write pushes exactly the full double segments and keeps the rest open |
| BmtWriter.Hasher.Write | bmt/bmt.go:333-372 | after a write the pushed double segments, the cursor and the open segment are those of all data written so far |
| BmtWriter.Hasher.WriteAll | bmt/bmt.go:333-372 | any split of the input into writes leaves the same state as one write |
| BmtWriter.Hasher.CursorInTree | bmt/bmt.go:333-372 | the leaf index in use always lies inside the tree |
| BmtHasher.NewTree | bmt/bmt.go:253-275 | the levels built from the root down are exactly the positions of the tree, all at rest, with a leaf for every pair of segments |
| BmtHasher.HashChunk | bmt/bmt.go:292-318 | from the segment count and the pieces of the data alone: every run of the goroutines over a new tree sends nothing but the hash of a new reference hasher, can go on until it has, and leaves the tree reusable |
| ChainStore.FindCommonAncestor | core/database_util.go:628-652 | it returns the highest common ancestor, and nothing exactly if the branches are disjoint |
| ChainStore.ReorgWalk | core/blockchain.go:1521-1561 | the walk of reorg ends at the highest common ancestor and collects exactly both paths down to it, although the new head is not stored yet |
| ChainStore.ReinjectWalk | core/tx_pool.go:383-409 | the walk of the pool reset meets at the same block and collects exactly the transactions of both paths |
| ChainStore.MeetIsUnique | core/database_util.go:628-652 | there is only one such meeting point, so the three walks agree |
| ChainStore.SharedPath | core/database_util.go:628-652 | two branches agree at a number exactly up to the meeting point |
| HeaderChain.Chain.WriteHeader | core/headerchain.go:132-197 | the new database is the specified one, for either outcome of the coin toss, and the status says which branch won |
| HeaderChain.Chain.DeleteAbove | core/headerchain.go:157-164 | the delete loop removes exactly the canonical entries above the new head and terminates |
| HeaderChain.Chain.Overwrite | core/headerchain.go:165-177 | the overwrite loop stops early, yet every number below ends up on the new head's ancestor chain |
| HeaderChain.Chain.Promote | core/headerchain.go:152-187 | a winning header becomes the head and the canonical map becomes its ancestor chain |
| HeaderChain.Chain.GetTd | core/headerchain.go:314-326 | the result is the cached lookup, and the cache stays right |
| HeaderChain.CacheTransparentIff | core/headerchain.go:314-326 | the cache, which ignores the number, gives what the database gives if and only if the hash is not cached or the number is right |
| HeaderChain.WrongNumberLookup | core/headerchain.go:314-326 | on a fresh chain the genesis block asked for with a wrong number is not found, then found once it has been asked for with the right one |
| HeaderChain.Chain.GetHeader | core/headerchain.go:346-358 | a stored header is found exactly if its number is right or it is cached, and is cached then |
| HeaderChain.TdIsPathDifficulty | core/headerchain.go:132-149 | a stored total difficulty is the sum of the difficulties down to genesis |
| HeaderChain.NothingLost | core/headerchain.go:132-197 | no run loses a stored header |
| HeaderChain.WrittenStores | core/headerchain.go:132-149 | a header with a known parent is stored whatever the coin and the fork choice, with an unknown one nothing is, and the others stay as they were |
| HeaderChain.HeadIsChosen | core/headerchain.go:132-197 | over every run, in terms of the headers in the order written: exactly those whose parents are known when they come are stored; the head is the one whose path is heavier than the earlier ones', or as heavy with its own coin for it, and than the later ones', or as heavy with their coins against them |
| HeaderChain.RunFromGenesis | core/headerchain.go:132-197 | after every run the canonical map is defined on exactly 0..head and is the head's ancestor chain, and the head has the highest total difficulty |
| BlockChain.ScanMeaning | core/database_util.go:484-501 | the scan of a branch finds exactly the transactions on it, each at its block and index |
| BlockChain.WriteTxLookupEntries | core/database_util.go:484-501 | writing a block's entries adds exactly that block's positions |
| BlockChain.TxDifference | core/types/transaction.go:428-443 | the difference keeps exactly the transactions of the first list that are not in the second, in order |
| BlockChain.ReindexedIsScan | core/blockchain.go:1573-1592 | removing the difference and adding the new segment's entries turns the scan of one branch into the scan of the other |
| BlockChain.Chain.Insert | core/blockchain.go:496-524 | the block becomes canonical at its number and the head |
| BlockChain.Chain.InsertSegment | core/blockchain.go:1573-1583 | inserting the new segment sets canonical hashes and entries of exactly its blocks |
| BlockChain.NoImpossibleReorg | core/blockchain.go:1563-1572 | a winning block leaves both segments non-empty, so the "impossible reorg" branch is never taken |
| BlockChain.NeverDisjoint | core/blockchain.go:1521-1561 | with one genesis block the walk of reorg never runs off a branch |
| BlockChain.Chain.Reorg | core/blockchain.go:1498-1603 | afterwards the lookup index is a scan of the new branch and its blocks are canonical |
| BlockChain.Chain.WriteBlockWithState | core/blockchain.go:901-1029 | the new state is the specified one and the invariant is kept; a block is refused exactly if its parent is unknown, otherwise stored whatever the fork choice, and becomes the head, with the status saying so, exactly if its path has more difficulty than the head's, or as much and it has the higher number |
| BlockChain.WrittenKeepsInv | core/blockchain.go:986-1021 | writing any acceptable block keeps head, canonical hashes, index and difficulties right |
| BlockChain.WrittenStores | core/blockchain.go:918-926 | a block with a known parent is stored, with an unknown one nothing is, and every block stored before is still there unchanged |
| BlockChain.WrittenChooses | core/blockchain.go:986-1021 | storing, head and status after one write, in terms of the difficulty of paths |
| BlockChain.WrittenIndexedTo | core/blockchain.go:496-524 | a step raises the highest canonical entry to the new head's number if that is higher, erases none, and every entry names a stored block of its number |
| BlockChain.ExactIff | core/blockchain.go:496-524 | over every run from genesis, canonical entries are defined on exactly 0..m with m the highest number of any head so far; they are confined to 0..head if and only if the head is at m |
| BlockChain.StaleEntryExample | core/blockchain.go:496-524 | two light blocks, then a heavy one beside the first: a stale canonical entry stays above the head, until a child of the heavy block replaces it |
| BlockChain.RunFromGenesis | core/blockchain.go:986-1021 | after every run the head is best by difficulty then number, canonical hashes up to it are its ancestors, and the index holds exactly its chain's transactions at their positions |
| BlockChain.RunStores | core/blockchain.go:918-926 | over every run, exactly the blocks whose parents are known when they come are stored |
| BlockChain.HeadIsFirstBest | core/blockchain.go:986-1021 | over every run, in terms of the blocks in the order written: the head is heavier than every accepted one before it, and no later one is heavier than it, by the difficulty of the path, then number |
| Feed.Feed.Subscribe | event/feed.go:73-93 | a subscription is added to those that the next Send serves |
| Feed.Feed.Find | event/feed.go:210-217 | the first index of a channel, or -1 exactly if it is absent |
| Feed.Feed.Delete | event/feed.go:220-222 | the case at an index is removed and the others keep their order |
| Feed.Feed.Deactivate | event/feed.go:225-229 | the case is swapped to the end of the active prefix |
| Feed.SubsStepKeepsInv | event/feed.go:104-125 | every interleaved step of unsubscribing and sending keeps each live subscription in exactly one list |
| Feed.DropNeverPanics | event/feed.go:104-125 | in every interleaving a channel taken from the remove channel is found among the send cases |
| Feed.ListsAreSubscriptions | event/feed.go:73-125 | in every interleaving and for every channel, inbox and send cases together hold what was subscribed less what was cancelled, and beyond that only what is being cancelled |
| Feed.Feed.TryAll | event/feed.go:153-165 | the non-blocking pass keeps every subscription accounted for: waiting, served or removed |
| Feed.Feed.SelectOne | event/feed.go:167-178 | one blocking choice serves a subscription or removes one that asked to leave, and makes progress |
| Feed.Feed.Send | event/feed.go:129-187 | it ends; it returns the number of deliveries; only subscriptions that ask to leave are removed, all others get the value; the cases become the old ones plus the inbox minus the removed |
| Feed.ExactlyOnce | event/feed.go:129-187 | a single subscription that stays gets the value exactly once, one that leaves at most once |
| Feed.StayersAreServed | event/feed.go:129-187 | every subscription that does not ask to leave is served, and if none does, exactly all are |
| Feed.RequestsAreSubscribed | event/feed.go:104-125 | in every interleaving, the requests to leave that are or become visible to a running Send are for subscriptions among its cases, and what it drops is among them |
| TxSortedMap.SortedMap.Put | core/tx_list.go:73-79 | the transaction is stored under its nonce and heap and cache stay right |
| TxSortedMap.SortedMap.Forward | core/tx_list.go:84-98 | exactly the lower nonces are removed and returned in order |
| TxSortedMap.SortedMap.Filter | core/tx_list.go:102-123 | exactly the matching transactions are removed and returned |
| TxSortedMap.SortedMap.Cap | core/tx_list.go:127-148 | exactly the highest nonces beyond the limit are removed |
| TxSortedMap.SortedMap.Remove | core/tx_list.go:152-169 | exactly that nonce is removed, and the result says whether it was there |
| TxSortedMap.SortedMap.Ready | core/tx_list.go:178-193 | the maximal run of consecutive nonces from the lowest is removed and returned, if the lowest is not above the start |
| TxSortedMap.SortedMap.Flatten | core/tx_list.go:203-216 | the listing in nonce order, cached or not |
| TxList.AccountList.Add | core/tx_list.go:251-275 | accepted exactly for a free nonce, or if the one there is not special and its price is exceeded, and by the price bump in per cent up to rounding; bounds are raised |
| TxList.PriceDecides | core/tx_list.go:257-264 | the threshold, computed by a rounded division, in prices alone: q replaces p exactly if q > p and 100 q + 99 >= p (100 + bump) |
| TxList.PricesAreBids | core/tx_list.go:251-275 | over any sequence of operations on a list, while a nonce stays occupied and no special transaction is placed there, its price goes through a chain of bids, one per replacement, each outbidding the one before |
| TxList.AddedKeepsCaps | core/tx_list.go:251-275 | adding raises each cached bound so that it covers the new transaction too |
| TxList.AccountList.Filter | core/tx_list.go:293-325 | the effect is the specified filter, with removed and invalidated transactions returned |
| TxList.ScanPartitions | core/tx_list.go:293-325 | kept, removed and invalidated transactions partition the list |
| TxList.ScanKeepsContiguous | core/tx_list.go:293-325 | a strict list without gaps keeps none after Filter |
| TxList.SplitsContiguous | core/tx_list.go:280-282 | Forward, Cap and Ready cut at a nonce, which leaves no gaps on either side |
| TxList.ShortCutIsScanIff | core/tx_list.go:293-299 | with a right gas bound and any cost bound, the short cut returns what a scan would if and only if no issuer is asked for more than it has and no transaction above the cost bound that the account pays for costs more than the account has |
| TxList.ShortCutMissesIssuer | core/tx_list.go:293-299 | a transaction to an issuer without funds that the short cut keeps |
| TxList.FilterKeepsCapsIff | core/tx_list.go:300-325 | the cost bound is right afterwards if and only if the short cut was taken on a right one, or no transaction on an issuer's credit survives the scan; the gas bound stays right |
| TxList.CreditMisleadsShortCut | core/tx_list.go:293-325 | a transaction kept on credit lowers the bound below its own cost, and a later short cut keeps what a scan would drop |
| TxList.GasCapAlwaysOk | core/tx_list.go:251-347 | the gas bound is right after any sequence of operations, placing by promoteSpecialTx among them on a list |
| TxList.OverCapWasCredited | core/tx_list.go:251-347 | after any sequence of operations, placing by promoteSpecialTx among them, a transaction above the cost bound was found on an issuer's credit by an earlier scan |
| TxList.ShortCutOverLifeIff | core/tx_list.go:293-299 | after any sequence of operations, placing by promoteSpecialTx among them, the short cut returns what a scan would if and only if no issuer is asked for more than it has and no transaction once found on credit, now paid by the account, costs more than the account has |
| TxList.AccountList.Remove | core/tx_list.go:336-347 | the nonce goes, and in strict mode everything after it is invalidated |
| TxList.RemovedMeans | core/tx_list.go:336-347 | which nonces stay and which are invalidated: those above a removed one exactly in a strict list |
| TxList.RemovedKeepsContiguous | core/tx_list.go:336-347 | removal from a strict list leaves no gaps, and the parts make up the old list |
| PricedList.PricedList.Put | core/tx_list.go:414-416 | the transaction is added to the price heap |
| PricedList.PricedList.Removed | core/tx_list.go:421-435 | below a quarter of stale entries only the counter moves; above it the heap becomes exactly the pool |
| PricedList.PricedList.Cap | core/tx_list.go:439-466 | exactly the live remote transactions below the threshold are dropped; nothing else is lost but stale entries, and the counter follows them |
| PricedList.PricedList.Underpriced | core/tx_list.go:470-492 | true exactly for a remote transaction not above the cheapest live one |
| PricedList.PricedList.Discard | core/tx_list.go:496-519 | the cheapest live remote transactions are dropped, as many as asked or all there are |
| PricedPool.PooledIsPriced | core/tx_pool.go:743-764 | in every run of additions, requeueings, special additions, deletions and sweeps, a pooled transaction has a heap entry unless promoteSpecialTx added it, or a sweep took it out, and since then it was neither entered again nor deleted, nor the heap rebuilt |
| PricedPool.StepCovers | core/tx_list.go:414-435 | each of these steps keeps the heap covering the pool but for the transactions known to have no entry |
| PricedAdd.RemoveEachPriced | core/tx_pool.go:694-697 | removing what the heap has named one by one, each exactly as alone, a name that comes twice being unknown the second time: exactly the others stay, the heap follows, and nothing removed is left without an entry |
| PricedPool.Discarding | core/tx_list.go:496-519 | on a heap that covers the pool: no more are named than asked, all pooled and remote; what stays, is remote and has an entry is no cheaper, and stays only if as many as asked were named |
| PricedPool.FreesEachIff | core/tx_pool.go:692-697 | deleting named transactions frees one place each if and only if none is named twice |
| PricedPool.NamedTwice | core/tx_list.go:496-519 | the cheapest of four, deleted and added again: the heap's two cheapest entries are both its own, so that a discard of two frees one place |
| PricedPool.RunGoesOn | core/tx_list.go:414-435 | what an operation does to pool and heap continues a run, so that PooledIsPriced holds after it too |
| PricedAdd.RemovePriced | core/tx_pool.go:964-1002 | removeTx with the heap: one deletion, then one new entry for each pending transaction that goes back to the queue, and nothing for an unknown hash |
| PricedAdd.MakeRoom | core/tx_pool.go:692-697 | discard and removals: the cheapest remote ones with an entry go, exactly; one place is freed per name if and only if none is named twice |
| PricedAdd.InsertPriced | core/tx_pool.go:700-729 | the end of add with the heap: what is replaced is deleted, the new transaction entered; the pool grows by one exactly if nothing is replaced |
| PricedAdd.SpecialPriced | core/tx_pool.go:816-848 | promoteSpecialTx with the heap, which learns of what goes but not of what comes; the pool grows by one exactly if nothing was at its place |
| PricedAdd.AddPriced | core/tx_pool.go:665-738 | all of add on values, with the heap deciding what is underpriced and what goes; see TxPool.Pool.Add |
| Eviction.CountPending | core/tx_pool.go:1061-1064 | the loop counts every pending transaction, in any order |
| Eviction.LowerTo | core/tx_pool.go:1087-1107 | lowering a group of offenders together keeps the state at one level with a right running count, and stops as soon as the pool fits |
| Eviction.Evict | core/tx_pool.go:1061-1131 | eviction ends at one level not below the guaranteed slots; the pool fits or every remote account is down to its slots; one level higher would not fit; the dropped transactions are exactly the missing ones |
| Eviction.LevelMeans | core/tx_pool.go:1061-1131 | at a level every remote account keeps min(original, level) transactions, its lowest nonces, with its pending nonce taken back; local accounts keep all |
| PoolState.Enqueue | core/tx_pool.go:743-764 | accepted as Add accepts; the index gains the transaction and loses the one it replaces; the invariant is kept |
| PoolState.EnqueueKeeps | core/tx_pool.go:743-764 | queueing a new or a moved transaction keeps the pool invariant |
| PoolState.AddAll | core/tx_pool.go:781-813 | a batch with free nonces is added without any refusal, lowest nonce first |
| PoolState.PromoteAll | core/tx_pool.go:781-813 | a ready batch moves to the pending list, and the pending nonce to one past its last |
| PoolState.Remove | core/tx_pool.go:964-1002 | exactly that transaction leaves the index; later pending ones of its account go back to the queue |
| PoolAdd.SpecialKeepsIff | core/tx_pool.go:816-848 | the invariant survives if and only if the transaction is refused or the sender has no queued one with its nonce |
| PoolAdd.SpecialClash | core/tx_pool.go:816-848 | a queued and a special transaction with the same sender and nonce both end up in the pool |
| PoolAdd.NonceFindsTx | core/tx_pool.go:964-1002 | while the invariant holds, looking the transaction up by sender and nonce, pending first, removes exactly the transaction with the given hash |
| PoolAdd.ClashLosesTrack | core/tx_pool.go:964-1002 | after a clash it does not: removing the queued transaction takes the special one out of its list and the queued one out of the index, and the pending list would refuse the queued one at any price bump |
| PoolMoves.DemoteAccount | core/tx_pool.go:1177-1217 | per account: processed and unpayable transactions leave the index, invalidated ones and, after a gap, all are queued |
| PoolMoves.DemoteAll | core/tx_pool.go:1177-1217 | the loop over all accounts, in any order, makes of each account's lists exactly what demotion of that account alone would |
| PoolMoves.DemotedIsSettled | core/tx_pool.go:1177-1217 | what stays pending starts exactly at the account's nonce |
| PoolMoves.DemotedContiguous | core/tx_pool.go:1177-1217 | demotion leaves no gaps where there were none |
| PoolMoves.DemotedSpares | core/tx_pool.go:1177-1217 | only processed or unpayable transactions are lost |
| PoolMoves.PromoteAccount | core/tx_pool.go:1019-1059 | per account: processed and unpayable queued transactions are dropped, the ready run moves to pending, the rest is capped |
| PoolMoves.PromotedBounds | core/tx_pool.go:1019-1059 | what stays queued is not processed yet and within a remote account's limit |
| PoolMoves.PromotedSpares | core/tx_pool.go:1019-1059 | a local account loses only processed or unpayable transactions |
| PoolMoves.PromoteEach | core/tx_pool.go:1019-1059 | the loop over distinct accounts makes of each exactly what its own promotion would, and touches no other account |
| PoolMoves.EvictPending | core/tx_pool.go:1061-1131 | eviction on the pool's own lists keeps the pool invariant, ends at a level, does nothing unless the next higher level is too full, and takes nothing from local accounts |
| PoolMoves.ReadyAgrees | core/tx_list.go:178-193 | the cut that promotion makes in a queued list is the one that SortedMap.Ready makes |
| PoolMoves.CapAgrees | core/tx_list.go:127-148 | what promotion leaves of a queued list after its cap is what SortedMap.Cap leaves |
| PoolMoves.PromoteKeepsIntervals | core/tx_pool.go:1019-1059 | what is ready continues the pending list: it stays the interval from chain nonce to pending nonce |
| PoolMoves.EvictKeepsIntervals | core/tx_pool.go:1061-1131 | eviction to a level takes lists and pending nonces back together: intervals stay intervals |
| PoolMoves.Execute | core/tx_pool.go:1007-1171 | promotion of the given accounts, eviction and the queue's limit on values: each is given exactly; invariant and intervals are kept, and local accounts lose only dead transactions |
| PoolAdd.RemoveKeepsIntervals | core/tx_pool.go:964-1002 | removal cuts the interval at the removed nonce and takes the pending nonce back to it |
| PoolAdd.InsertKeepsIntervals | core/tx_pool.go:700-729 | a replacement or a queued transaction leaves the intervals as they are |
| PoolAdd.SpecialKeepsIntervals | core/tx_pool.go:816-848 | a special transaction with the pending nonce is never a duplicate and extends the interval by one |
| PoolReset.RefreshNonces | core/tx_pool.go:436-440 | every pending account's nonce becomes one past its last transaction; the loop never meets an empty list |
| PoolReset.DemotedGaplessIff | core/tx_pool.go:434-440 | after demotion and this loop an account's list is the interval if and only if, in the list before, the chain nonce stays and nothing that stays lies above a missing nonce, or nothing stays and no nonce had been handed out |
| PoolReset.GapsSurviveDemotion | core/tx_pool.go:1177-1217 | demotion leaves a payable list that starts at the chain nonce as it is, gaps included |
| PoolReset.PromotedSettlesIff | core/tx_pool.go:1019-1059 | an account's list will be the interval after demotion if and only if its lists before a preceding promotion say so: the run that joins counts as pending, and as the list's bounds if it raises them |
| PoolReset.PromoteGaplessIff | core/tx_pool.go:1019-1059 | promotion of an account that has its chain nonce pending, or neither pending nor queued, neither opens nor closes a gap |
| PoolReset.ResetGaplessIff | core/tx_pool.go:426-443 | promotion, demotion, refresh and promotion in a row, for an account the limits leave alone: it ends as an interval if and only if its lists and nonce before the first of them say so |
| PoolReset.EvictedGaplessIff | core/tx_pool.go:1061-1131 | after an eviction an account without lower nonces is an interval if and only if it was one and lost nothing, or the kept number of nonces from the chain nonce on was pending and the pending nonce was the next one or falls back to it |
| PoolReset.NonceDecides | core/tx_pool.go:1087-1131 | that the nonce after the cut is pending is neither enough nor needed for this: two lists |
| PoolReset.LastGaplessIff | core/tx_pool.go:434-443 | from demotion to the end of the reset, with any eviction |
| QueueLimit.SortByBeat | core/tx_pool.go:1138-1145 | the remote accounts, each once, by heartbeat |
| QueueLimit.DropFrom | core/tx_pool.go:1148-1169 | an account loses all of its queue or its highest nonces, exactly as many as are still to go |
| QueueLimit.LimitQueue | core/tx_pool.go:1132-1171 | the queue fits or only local accounts are left in it; never more is dropped than needed; an account loses only if all with a later heartbeat have lost everything, its highest nonces first; local accounts lose nothing; the pool invariant is kept |
| QueueLimit.OldestFirstIff | core/tx_pool.go:1132-1171 | the accounts with the oldest heartbeat lose first, as the comment says, if and only if the queue fits, the local accounts alone fill it, or all remote accounts with a queue have one heartbeat |
| QueueLimit.NewestLoses | core/tx_pool.go:1132-1171 | two accounts with one queued transaction each, heartbeats 1 and 2, room for one: it is not the oldest that loses |
| PoolAdd.Insert | core/tx_pool.go:700-729 | the verdict in prices, and the new lists and index, exactly: a free nonce is queued, an ordinary transaction is replaced where it is exactly if it is outbid, a special one never; a refusal changes nothing; the invariant is kept |
| PoolAdd.VerdictByPrice | core/tx_pool.go:700-729 | the verdict depends on the occupant's kind and the two prices only |
| PoolAdd.RemoveEach | core/tx_pool.go:693-697 | discarding a list of transactions removes exactly those, one after the other, and keeps invariant and intervals |
| TxPool.AddEach | core/tx_pool.go:908-932 | a batch is added one by one, each exactly as alone; the accounts to promote are those with a newly queued transaction; the invariant holds unless a special transaction meets a queued one, up to which the run is given |
| TxPool.Pool.RemoveTx | core/tx_pool.go:964-1002 | removal keeps the invariant and the intervals and does exactly what is specified; an unknown hash changes nothing |
| TxPool.Pool.PromoteSpecialTx | core/tx_pool.go:816-848 | the new state, and the exact condition under which the invariant holds in it |
| TxPool.Pool.Add | core/tx_pool.go:665-738 | what it answers, case by case, in hashes, nonces and prices: known, invalid, special exactly for a signer's special transaction with the pending nonce, underpriced exactly if the pool is full and the transaction not above the cheapest entry, and otherwise by the price of the one at its place; the new state follows from the answer; a full pool discards the cheapest remote ones; room is made for exactly one transaction if and only if the heap names as many as asked and none twice, and the size afterwards is stated; the heap still covers the pool; nothing else is lost but the one at its place; the intervals are kept, and the invariant exactly unless a special transaction meets a queued one |
| TxPool.Pool.Reset | core/tx_pool.go:421-443 | the whole reset with any reinjected transactions: fresh nonces, each transaction added exactly, then promotion with its limits, demotion, refresh and promotion with its limits, the last also if nothing is queued, each given exactly; only dead transactions of local accounts are lost in these; it ends in a valid pool exactly unless a reinjected special transaction meets a queued one |
| TxPool.ResetTo | core/tx_pool.go:421-443 | the same on values |
| TxPool.ResetIntervalIff | core/tx_pool.go:421-443 | over every reset: an account that the last eviction leaves alone ends as an interval if and only if its list and nonce before demotion say so, and, if the first one leaves it alone too, if and only if its lists and nonce after reinjection say so; one that is cut to k transactions, if and only if the k nonces from the chain nonce on were pending and the pending nonce was the next or falls back to it; local accounts are left alone |
| TxPool.QuietReset | core/tx_pool.go:421-443 | with nothing to reinject, an account whose pending list has no gap ends as an interval, whatever the new chain state and the limits |
| TxPool.ReinjectionLeavesGap | core/tx_pool.go:421-443 | a chain that goes back from nonce 5 to 3, of which only 3 is accepted again: an account with the interval 5, 6 pending does not end as an interval |
| TxPool.Pool.PromoteExecutables | core/tx_pool.go:1007-1171 | the given accounts are promoted exactly, then pending lists are cut to a level and the queue to its limit; invariant and intervals are kept, local accounts lose only dead transactions, and both parts fit, or are down to the guaranteed slots and to local accounts |
| TxPool.Pool.DemoteUnexecutables | core/tx_pool.go:1177-1217 | exactly what demotion makes of each account; every pending list then starts at its account's nonce, and only dead transactions are lost |
| Indexer.StepKeepsInv | core/chain_indexer.go:221-370 | every step of update loop, newHead and chain keeps the invariant, outside the overlap |
| Indexer.NothingLost | core/chain_indexer.go:304-306 | if the previous section's head is still there after processing, the stored count has not moved |
| Indexer.ReorgDropsChanged | core/chain_indexer.go:221-245 | in every interleaving in which the updater does not clear the index beside it, when newHead for a reorg has ended, a section is stored, known and has its head, unchanged, if and only if it was before and all its blocks lie below the given number |
| Indexer.ConfirmedAreKnown | core/chain_indexer.go:246-262 | newHead without a reorg makes known exactly the sections whose blocks are all confirmed, and forgets none |
| Indexer.PassIndexesIff | core/chain_indexer.go:264-370 | a pass of the update loop that is left alone stores the next section, under its last block's hash, if and only if its canonical headers continue the last stored head and the backend commits; otherwise nothing is stored and the section is no longer known |
| Indexer.CalmRunsAreExact | core/chain_indexer.go:221-370 | in every interleaving without the overlap, the counts in memory and database agree and heads exist for exactly the stored sections, each exactly one section of parent steps above the previous |
| Indexer.MeetingOverlaps | core/chain_indexer.go:341-349 | the first state in which both threads are inside setValidSections is an overlap: one of them is just beginning |
| Indexer.OverlapHarmlessIff | core/chain_indexer.go:405-417 | from an overlap, no interleaving of the two runs wraps the counter or ends with a wrong index if and only if the count is zero when the second one begins |
| Indexer.RunsUntilOverlap | core/chain_indexer.go:221-417 | every run from an empty index is exact at rest up to the first overlap, and what follows there is harmless exactly if the count is zero |
| Indexer.DrainStepKeeps | core/chain_indexer.go:221-417 | after an overlap at count zero, every step of either thread or the chain leads to a state of that kind or back to the invariant |
| Indexer.RunsAreSoundIf | core/chain_indexer.go:221-417 | over every run, beyond all overlaps: if whenever two runs of setValidSections meet the count is zero, the counter never wraps and the index is exact whenever none is under way |
| Indexer.OverlapHappens | core/chain_indexer.go:341-349 | with one section indexed, a reorg to the first section beside a failed reset is reachable and does harm |
| Indexer.ChainIndexer.SetValidSections | core/chain_indexer.go:405-417 | run alone, it sets both counts and removes exactly the heads from the new count up to the old, leaving the others as they are |
| Indexer.ChainIndexer.ReadSection | core/chain_indexer.go:351-370 | it succeeds exactly if the canonical headers continue the given head through the section, and returns its last block |
| Indexer.ChainIndexer.ProcessSection | core/chain_indexer.go:341-370 | the same after a successful reset, changing nothing; a failed reset clears the index |
| Shuffle.SwapMerges | contracts/utils.go:251-261 | swapping the last open position with an earlier one merges their cycles into one |
| Shuffle.NewSlice | contracts/utils.go:473-481 | the slice starts as the identity |
| Shuffle.GenM2FromRandomize | contracts/utils.go:241-264 | for any draws the result is one single cycle through all positions, and the draws can be read back from it |
| Shuffle.DrawsReadBack | contracts/utils.go:251-261 | reading back, last position first and undoing its exchange, gives the draws |
| Shuffle.DifferentDraws | contracts/utils.go:251-261 | different draws give different results |
| Shuffle.EveryCycleIsDrawn | contracts/utils.go:251-261 | every single cycle is the result of some draws in range, those read back from it |
| Shuffle.SingleCycleMeans | contracts/utils.go:241-264 | such a result is a permutation, and with two or more masternodes nobody is assigned to themselves |
| Rewards.BlockSigners | contracts/utils.go:350-360 | each masternode among a block's senders counts once |
| Rewards.CountSigners | contracts/utils.go:345-375 | each count is the number of counted blocks the masternode signed, and the total is the sum of the counts |
| Rewards.SignedIsCount | contracts/utils.go:345-375 | the count is the number of blocks in the range that are counted and that the masternode sent a sign transaction for |
| Rewards.CalculateRewardForSigner | contracts/utils.go:381-393 | each signer gets its signs times the whole part of one sign's reward |
| Rewards.SignerRewardsFit | contracts/utils.go:381-393 | all signers together get at most the chain reward and less than the total count short of it |
| Rewards.VoterCaps | contracts/utils.go:433-441 | every voter's cap is collected once; before TIP2019 repeated voters add to the total each time |
| Rewards.PayVoters | contracts/utils.go:442-455 | every voter's balance grows by exactly its share, whether or not it had one |
| Rewards.VotersFit | contracts/utils.go:442-455 | the voters together get at most their reward, and lose less than one unit each if caps are counted once |
| Rewards.GetRewardBalancesRate | contracts/utils.go:419-460 | who gets what; never more than the reward in all, even with repeated voters or coinciding addresses; with distinct addresses the loss is below three plus the number of voters |
| Gas.IntrinsicGas | core/state_transition.go:80-110 | the sum of base and data prices, refused exactly if it does not fit in 64 bits |
| Gas.GasPool.AddGas | core/gaspool.go:29-35 | gas is added, or it panics exactly if the pool would exceed 64 bits |
| Gas.GasPool.SubGas | core/gaspool.go:39-45 | gas is taken exactly if there is enough |
| Gas.StateTransition.UseGas | core/state_transition.go:164-171 | gas is used exactly if there is enough |
| Gas.StateTransition.BuyGas | core/state_transition.go:173-197 | which error, if any: exactly if sender or issuer cannot pay or the pool has too little; otherwise the gas leaves the pool and its price the sender, unless an issuer pays; an error changes nothing |
| Gas.StateTransition.PreCheck | core/state_transition.go:199-213 | which error, if any: a checked nonce must be the account's, then as buying the gas; the gas is bought |
| Gas.StateTransition.Prepare | core/state_transition.go:218-236 | which error, if any, before the message runs: the checks, then intrinsic gas that overflows or is not covered; otherwise what it runs with |
| Gas.StateTransition.RefundGas | core/state_transition.go:273-291 | the refund is exactly the counter or half of the used gas, whichever is less; what is left is paid back and returned to the pool |
| Gas.StateTransition.TransitionDb | core/state_transition.go:218-271 | a message goes through if and only if nonce, payer, pool, intrinsic gas and transfer allow it, else which error; for every account what it has in the end: what the EVM left it, the fee if it is the coinbase, the price of the unused gas if it is the sender and pays; the gas used; Ether is conserved, or grows by exactly the fee if an issuer pays, and AddGas never panics |
| Gas.GoesThroughIff | core/state_transition.go:173-256 | when a message goes through, in one condition on nonce, balance, pool and gas |
| Gas.TransitionSettles | core/state_transition.go:218-291 | account by account: what the EVM is given, with the sender's payment and its nonce advanced by a call only; how large the refund is; and who gets what in the end |
| Gas.ApplySign | core/state_processor.go:209-242 | a sign transaction uses no gas and advances the nonce, exactly if the nonce is right |
| Gas.ApplyMessage | core/state_processor.go:158-207 | the same for a message: its receipt, world and the gas left in the pool are those of its transition |
| Gas.AppliedSettles | core/state_processor.go:158-207 | a message is applied if and only if it goes through, and its world, and the gas and the failure in its receipt, are those of its transition, account by account |
| Gas.ApplyTransaction | core/state_processor.go:158-207 | exactly when a transaction goes through, with which world and receipt; the receipt's cumulative gas and the pool account for its gas |
| Gas.Process | core/state_processor.go:83-96 | a block goes through exactly if each transaction does from where the previous ones led; then receipts accumulate, gas used is within the limit, AddGas never panics, Ether grows by exactly the issuers' fees, and each issuer's balance falls by the gas used for it |
| Gas.CoinbaseEarns | core/state_processor.go:83-96 | over a block, a coinbase that sends nothing and that the EVM leaves alone earns exactly the price of the gas in the receipts |
| Gas.SetReceiptsData | core/blockchain.go:753-776 | each receipt's gas becomes the 64-bit difference of cumulative gas; a count mismatch is an error |
| Gas.GasIsRecovered | core/blockchain.go:753-776 | recomputing the gas of stored receipts gives back exactly what Process recorded |
| Gas.CumulativeGrows | core/state_processor.go:158-207 | cumulative gas never falls from one receipt to a later one |

## Left out

- Wrap-around of 64-bit block numbers, nonces and signature counts; the counters of tree nodes, the indexer's decremented section count, intrinsic gas and the gas pool are modelled at their width.
- The Merkle tree hasher's writes beyond capacity, `ReadFrom`, `Draw`, the tree pool, the length prefix that `Sum` may hash in front, and aliasing of the caller's buffer in `Write`.
- Caches of the chains other than those of total difficulties and headers, `SetHead`, `FastSyncCommitHead`, `InsertReceiptChain`, `Rollback`, and the fast-sync head in `insert`.
- Block validation, consensus and the state trie; that no transaction repeats on a branch is what block validation is taken to guarantee.
- The feed's type checks, and the reuse of a slice's backing array by `append` outside the part that `Send` shares.
- The 64-block cut-off of the pool's `reset`. Its ancestor walk is `ChainStore.ReinjectWalk`; the pool takes the transactions that come back as given, in any order.
- TxPool.Pool.Reset: after a reinjected special transaction has met a queued one, the reset is described up to that point only, since the lists no longer determine what later lookups by nonce find; `ClashLosesTrack` shows how.
- The pool's lists are values in `TxPool`, so that updates in place through shared pointers are not captured there; `TxList` and `TxSortedMap` model the same lists as objects.
- Eviction priorities are exact integers; the source stores them as 32-bit floats, which are exact below 16 million transactions.
- Setting of heartbeats, lifetimes, the journal and `validateTx`: single-branch checks or input and output.
- The price heap beside `promoteExecutables`, `demoteUnexecutables` and `reset`: what these do to it are events of `PricedPool`, but which ones is given for `add` and `removeTx` only; the heap's verdicts on reinjected transactions are any.
- The indexer's `AddKnownSectionHead` and its children; whether a stored section is still canonical when it is recorded.
- Decryption and network access for random numbers, and JSON output of rewards.
- EVM execution, `UpdateTRC21Fee`, `PayFeeWithTRC21TxFail`, block rewards and hard-fork state changes around the transaction loop.
