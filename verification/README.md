# go-zond: canonical chain, networking and transaction core

A Dafny model of the parts of go-zond in which state is hardest to keep right, with
proofs of what the code keeps over every run. Hashes are names (0 is the zero hash),
database tables are maps, and each critical section or `select` case of a concurrent
component is one atomic step; the steps may follow each other in any order.

| file | component |
|---|---|
| `Wrappers.dfy`, `Sequences.dfy`, `Sums.dfy`, `Heaps.dfy` | options and results, deletion from a sequence, sums over maps, binary heaps |
| `ChainStore.dfy` | header store, canonical index, the ancestor line every index is compared with |
| `CanonicalChain.dfy` | `reorg`, head writes and block imports of the block chain: index and transaction lookup |
| `HeaderChain.dfy`, `HeaderRewind.dfy` | header imports and `Reorg` of the header chain, `setHead` |
| `StateRewind.dfy` | the walk back to a block with state |
| `AncestorLookup.dfy` | `GetAncestor` and the cache of `GetHashFn` |
| `ChainIndexer.dfy` | the section indexer with its unlocked worker |
| `EventFeed.dfy`, `FeedCases.dfy` | one-to-many event delivery, and its accounts of cases and subscriptions |
| `DialScheduler.dfy` | the dialer's event loop, static pool and dial history |
| `ProtocolMatching.dfy` | capability matching and message code layout of a peer connection |
| `Reservoir.dfy` | the exponentially decaying sample reservoir |
| `Gas.dfy`, `WorldState.dfy`, `StateTransition.dfy` | gas arithmetic, balances, applying one message |
| `BlockProcessing.dfy`, `TxOrdering.dfy`, `BlockBuilding.dfy` | processing a block, the price and nonce set, building a block |

The central statements are invariants of state machines (`Run` methods quantify over
every sequence of steps), refinements of a loop to an independent definition (the
ancestor line, the parent walk, the plan of a protocol layout), and conservation laws
(money, gas, tips, deliveries).

## Conventions

- A method that changes an object states the whole new state; what it means is said by
  the invariant it keeps and by lemmas about the functions in its contract.
- Execution in the virtual machine is a parameter. What is used of it is the predicate
  `StateTransition.Behaves`: it neither makes nor loses money (the instruction set has no
  way to destroy a balance), returns no more gas than it was given, raises the nonce
  of a sender without code by one in a creation and not in a call, and leaves the nonces of other
  key-holding accounts alone. Of a sender with code, which only a simulated call can have, no nonce is claimed.
- Ghost logs keep what a statement about a whole run needs: the events a dialer received and the dials it started, the
  answers of a callback, the state and pool before each transaction of a block, the outcome of every transaction tried.
  What is claimed is defined from the log and the inputs, not from the functions the code is written with.
- Clock readings, random choices, interrupts and receiver readiness are nondeterministic
  or parameters. Weights of the reservoir are real numbers.
- Unsigned 64-bit arithmetic is explicit in the gas modules.

## Where code and expectation differ

- `core/blockchain.go:692` reads the parent of a block that has its state without a check.
  `StateRewind.Rewind` states, as a condition on the stored line and the arguments, exactly when the
  missing parent is reached; `MissingParentCrashes` gives an instance and `RootedNeverFallsOff` shows
  that it needs an incomplete line.
- An event feed looks cases up by channel, so an unsubscription can be answered by the case of another subscription of
  the same channel. The promise by channel holds all the same (`EventFeed.Feed.Run`), but a value can be sent when only a
  later subscription holds the channel: `ServedAfterRemoval` leads there from every state of its kind, `NoHolderLeft` and
  `CrossingNeedsTwo` say exactly when, and it needs a channel held twice at once during that send.
- `GetAncestor` takes the zero hash, asked for above the head, for a canonical block, because a
  missing index entry also reads as the zero hash; `AncestorLookup.GetAncestor` states the answer and
  `ZeroHashAnswered` is an instance.
- `Sections` returns a last block number wrapped around below zero when nothing is indexed.
- The access list part of `IntrinsicGas` is added without the overflow check of the data part;
  `Gas.IntrinsicGas` states the result modulo 2^64 and exactly when it is the true cost.
- A simulated call with the base fee disabled and no fee offered burns nothing; every other
  applied message burns exactly the base fee (`StateTransition.Burnt`).

## Model

| member | source | states |
|---|---|---|
| `ChainStore.Line` | core/headerchain.go:392-404 | The ancestor line: every entry is a stored header with that number, none lies above the head, and the head is its own entry. |
| `ChainStore.LineStep` | core/headerchain.go:392-404 | A line continues downwards exactly when the parent is stored under the next lower number, and then with that parent. |
| `ChainStore.LineOfElement` | core/headerchain.go:392-404 | Lines that share a hash share everything below it. |
| `ChainStore.ClosedIsRooted` | core/headerchain.go:519-613 | In a store that holds every parent, every line reaches block 0. |
| `ChainStore.LineOfLarger` | core/headerchain.go:200-242 | Adding headers does not change a line that reaches block 0. |
| `ChainStore.DeleteAbove` | core/blockchain.go:1936-1949 | On any index the loop, reading the state before its own batch, deletes exactly the entries between the number and the first gap; it leaves exactly the entries up to the number if and only if there is no gap above it. |
| `CanonicalChain.FindFork` | core/blockchain.go:1829-1889 | The two-cursor walk terminates; it succeeds exactly when both heads are stored and their lines meet, returns both segments head first, and stops at the highest shared block. |
| `CanonicalChain.CanonAfterReorg` | core/blockchain.go:1914-1949 | After adoption the index has no gap where deletion starts, and with the deletions and the head write it agrees with the new head's line at every number. |
| `CanonicalChain.AgreeBelowFork` | core/blockchain.go:1829-1889 | Lines that fork at a block agree at every number up to it. |
| `CanonicalChain.LookupAfterReorg` | core/blockchain.go:1914-1931 | After reorg and head write a transaction is looked up at n exactly when it lies in the canonical block n, although the head's transactions are missing from the added list. |
| `CanonicalChain.ReorgIsExact` | core/blockchain.go:1829-1949 | Index and lookup table after reorg and the head write are exactly those of the new head's line, and the deletion loop meets its no-gap condition. |
| `CanonicalChain.ExtendIsExact` | core/blockchain.go:903-924 | The head write alone keeps both tables exact when the block extends the head. |
| `CanonicalChain.TreeGrows` | core/blockchain.go:1309-1320 | Importing a block keeps the block tree: parents stored, one genesis, no transaction twice on a line. |
| `CanonicalChain.TreeLinesMeet` | core/blockchain.go:1829-1889 | In a block tree any two lines share the genesis block, so reorg cannot fail. |
| `CanonicalChain.ExactIndex` | core/blockchain.go:903-924 | What an exact index means number by number: an entry for every number from genesis to the head, each the parent of the next, none above. |
| `CanonicalChain.BlockChain.constructor` | core/blockchain.go:903-924 | A chain with only the genesis block starts with exact tables. |
| `CanonicalChain.BlockChain.WriteHeadBlock` | core/blockchain.go:903-924 | Writes the number entry and the lookup entries of one block and sets all three head markers. |
| `CanonicalChain.BlockChain.AdoptBlocks` | core/blockchain.go:1914-1924 | The loop from the lowest new block up, the head excluded, writes exactly the adopted blocks. |
| `CanonicalChain.BlockChain.Reorg` | core/blockchain.go:1829-1949 | Fails exactly when no block is shared and then changes neither tables nor head; otherwise the following head write completes index and lookup table for the new head. |
| `CanonicalChain.BlockChain.WriteKnownBlock` | core/blockchain.go:1296-1305 | Makes any stored block the head, never failing in a block tree, with both tables exact afterwards. |
| `CanonicalChain.BlockChain.InsertBlockWithoutSetHead` | core/blockchain.go:1996-2004 | Stores an importable block without touching the canonical tables, refuses any other. |
| `CanonicalChain.BlockChain.WriteBlockAndSetHead` | core/blockchain.go:1399-1429 | Stores an importable block and makes it the head, tables exact; refuses any other without change. |
| `CanonicalChain.BlockChain.SetCanonical` | core/blockchain.go:2009-2050 | With its state available a stored block becomes the head with exact tables; without it nothing changes. |
| `CanonicalChain.BlockChain.Run` | core/blockchain.go:1399-1429 | Every run of imports, known-block writes and SetCanonical calls ends with the index equal to the head's line and the lookup table equal to its transactions. |
| `HeaderRewind.Rewind` | core/headerchain.go:519-613 | Terminates in block and time mode whatever the callback answers; ends on a header of the old line that meets the final target, with no header of any fork and no index entry above it left, the store still parent-closed, and nothing changed if the target was already met. The callback is asked about every header passed, in order, and the final target is what the answers call for: a block target is lowered to the least number of a forced answer; a time target stays until the first answer forced before that time, and is from then on the least number of a forced answer. |
| `HeaderRewind.RetargetStep` | core/headerchain.go:562-568 | One more answer of the callback: lowering the target step by step gives the least number of the forced answers, in time mode from the first answer forced before the time on. |
| `HeaderRewind.Leftovers` | core/headerchain.go:578-587 | On any store the loop collects exactly the numbers between the head and the first empty one; on a parent-closed store those are all numbers above the head that carry headers. |
| `HeaderRewind.Wipe` | core/headerchain.go:589-604 | The deletions are exactly the headers of the collected numbers on all forks and the index entries of those numbers. |
| `HeaderRewind.NoGapBelow` | core/headerchain.go:578-587 | In a parent-closed store there is no empty number below a stored header, so the collection misses none. |
| `HeaderChain.SegmentOnLine` | core/headerchain.go:130-194 | The headers of a linked segment lie on the line of its last header. |
| `HeaderChain.CrossLink` | core/headerchain.go:153-171 | The walk back to the canonical line links, all reads seeing the index before the batch, exactly when the line meets the index or reaches block 0, and the writes then lie strictly above the cross link. |
| `HeaderChain.CrossLinked` | core/headerchain.go:153-171 | After the walk back the entries below the first new header are exactly those of its line, and none lies above the last new header. |
| `HeaderChain.SegmentCompletes` | core/headerchain.go:173-184 | Writing the segment on top gives exactly the line of its last header. |
| `HeaderChain.Backtrack` | core/headerchain.go:144-172 | Deletion above and replacement below succeed exactly when the first header's line reaches block 0, and leave below it exactly its line and nothing above the last header. |
| `HeaderChain.PileUp` | core/headerchain.go:173-184 | The loop writing the segment's entries equals writing them one after the other. |
| `HeaderChain.HeaderBatch` | core/headerchain.go:200-242 | From the first unknown header on all headers are written, the known prefix is skipped, and the count of inserted ones is exact. |
| `HeaderChain.HeaderChain.constructor` | core/headerchain.go:76-104 | A header chain with only the genesis header has an exact index. |
| `HeaderChain.HeaderChain.Reorg` | core/headerchain.go:130-194 | On a stored linked segment the index becomes exactly the last header's ancestors whether it extends, forks or lands lower; if the line does not reach block 0 nothing changes. |
| `HeaderChain.HeaderChain.WriteHeaders` | core/headerchain.go:200-242 | Stores the segment in one batch, or nothing when interrupted; the canonical index is unaffected. |
| `HeaderChain.HeaderChain.WriteHeadersAndSetHead` | core/headerchain.go:251-279 | Whatever the outcome the index stays exact; the last header becomes current unless it is canonical already, the import was interrupted, or its line does not reach block 0. |
| `HeaderChain.HeaderChain.SetHead` | core/headerchain.go:519-613 | Rewinding keeps the index exact: it becomes its own prefix up to the new head, and if anything was rewound no header above survives. In block mode the new head is at or below the requested block and the block of every forced answer; in time mode it is not after the requested time, or, once an answer was forced before that time, at or below the block of every forced answer from then on. |
| `HeaderChain.HeaderChain.Run` | core/headerchain.go:251-279 | Every run of header imports, interrupted or not, keeps the index exact. |
| `HeaderChain.MergeComplete` | core/headerchain.go:200-242 | Adding a segment that continues a stored header leaves no parent missing and adds no block 0. |
| `HeaderChain.HeaderChain.Sync` | core/headerchain.go:251-279 | Every run that mixes imports continuing a stored header, interrupted or not, with rewinds to a block or a time under any callback keeps the index exact and the store parent-closed with one genesis. |
| `AncestorLookup.WalkFurther` | core/headerchain.go:356-388 | One more step of the plain parent walk is the parent of where it stood, if that header is stored. |
| `AncestorLookup.WalkOnLine` | core/headerchain.go:356-388 | Walking down from an element of a rooted line stays on the line. |
| `AncestorLookup.GetAncestor` | core/headerchain.go:356-388 | Answers the true nth ancestor, or zero exactly for a request too deep, a missing header or an exceeded budget; the budget left is exactly what was not spent on headers read off the canonical line, in every case; the zero hash above the head is the one exception and its answer is stated. |
| `AncestorLookup.ZeroHashAnswered` | core/headerchain.go:356-388 | A concrete chain on which the lookup answers block 0 as an ancestor of the zero hash, although no parent walk starts there. |
| `AncestorLookup.WalkStuck` | core/zvm.go:77-113 | A walk that got stuck stays stuck for every deeper request. |
| `AncestorLookup.HashFn.constructor` | core/zvm.go:77-82 | The cache starts empty. |
| `AncestorLookup.HashFn.Get` | core/zvm.go:77-113 | Terminates and answers as an uncached parent walk would; the cache keeps holding the reference header's first ancestors and only grows. |
| `AncestorLookup.HashFn.Answers` | core/zvm.go:77-113 | Every sequence of queries is answered as uncached walks would answer it, which is with the hashes on the line of the parent where that line reaches block 0. |
| `AncestorLookup.UncachedOnLine` | core/zvm.go:77-113 | Where the parents are stored down to block 0, the answer for every number below the reference header is the hash on the line of its parent. |
| `StateRewind.Rewind` | core/blockchain.go:653-694 | Terminates at the highest deciding block of the target's line: it settles there, falls back to genesis, or dereferences a missing parent, and reports the right root block number. The dereference happens if and only if a root is requested that no stored ancestor carries, the lowest stored ancestor is not block 0 but has its state, and so have all at or below the pivot. |
| `StateRewind.SettlesExactly` | core/blockchain.go:653-694 | The walk settles on a qualifying block if and only if no block above it qualifies and every block above it without state lies above the pivot. |
| `StateRewind.CrashesExactly` | core/blockchain.go:691-692 | The walk ends at a missing parent if and only if the condition on the stored line holds that can be checked before it starts. |
| `StateRewind.EndsOnce` | core/blockchain.go:653-694 | The end of the walk is unique, so the outcome is determined. |
| `StateRewind.RootedNeverFallsOff` | core/blockchain.go:691-692 | When the line reaches block 0 the missing-parent dereference cannot happen. |
| `StateRewind.MissingParentCrashes` | core/blockchain.go:691-692 | A concrete store in which a block with state, not beyond the root, has no stored parent: the unchecked parent lookup is reached. |
| `StateRewind.UpdateHead` | core/blockchain.go:642-703 | Leaves a lower head alone, falls back to genesis when the block is missing, else walks, crashing exactly under the stated condition; on a parent-closed store it always ends on genesis or a block whose state is usable. |
| `ChainIndexer.DescendsCanonically` | core/chain_indexer.go:389-418 | Going down parent by parent from a canonical header of a linked index stays canonical. |
| `ChainIndexer.CanonicalFromLast` | core/chain_indexer.go:423-430 | If the last stored section head is canonical, all of them are. |
| `ChainIndexer.NextSection` | core/chain_indexer.go:351-354 | A section read without the lock extends the chain of section heads if its base is still the last head, whatever happened meanwhile. |
| `ChainIndexer.ChainIndexer.constructor` | core/chain_indexer.go:104-127 | An indexer starts with no sections. |
| `ChainIndexer.ChainIndexer.SetValidSections` | core/chain_indexer.go:480-492 | Removes exactly the section heads from the given count on. |
| `ChainIndexer.ChainIndexer.VerifyLastHead` | core/chain_indexer.go:423-430 | Rolls back to the largest count whose last head is canonical; every dropped head was not canonical, and on a linked index every remaining one is. |
| `ChainIndexer.ChainIndexer.NewHead` | core/chain_indexer.go:244-301 | A reorganisation cuts known and stored sections to those complete at the ancestor and keeps those; a plain head only raises the known sections by the confirmed ones. |
| `ChainIndexer.ChainIndexer.Sections` | core/chain_indexer.go:435-441 | After verification, the count, the last indexed block (wrapped below zero when there is none) and its canonical hash. |
| `ChainIndexer.ChainIndexer.Begin` | core/chain_indexer.go:318-335 | Picks the first unstored section and the head it must continue; a canonical index is not rolled back. |
| `ChainIndexer.ChainIndexer.ResetFails` | core/chain_indexer.go:392-396 | A backend that cannot be reset makes the indexer drop everything. |
| `ChainIndexer.ChainIndexer.ReadNext` | core/chain_indexer.go:398-413 | Each header read must be canonical now, present, and the child of the one before; otherwise the section fails. |
| `ChainIndexer.ChainIndexer.Commit` | core/chain_indexer.go:414-417 | Only a completely read section is committed. |
| `ChainIndexer.ChainIndexer.Finish` | core/chain_indexer.go:349-370 | The section is stored exactly when its base is still in place; otherwise known sections are cut to the verified ones. |
| `ChainIndexer.ChainIndexer.ReadSection` | core/chain_indexer.go:389-418 | Undisturbed on a complete chain, the reading loop reaches the canonical end of the section. |
| `ChainIndexer.ChainIndexer.IndexUndisturbed` | core/chain_indexer.go:305-383 | Undisturbed on a complete chain, one round stores exactly one more section, with the canonical head. |
| `ChainIndexer.ChainIndexer.Run` | core/chain_indexer.go:305-383 | Under every interleaving of notices, queries, chain changes, failures and worker steps, heads exist exactly below the stored count and each is exactly one section above the one before. |
| `FeedCases.FindCase` | event/feed.go:203-210 | The first case with the channel, or the length if there is none. |
| `Sequences.DeleteRemoves` | event/feed.go:213-215 | Deleting an index removes exactly that case. |
| `FeedCases.DeactivateMoves` | event/feed.go:218-222 | Deactivating swaps a case with the last active one: the active ones lose exactly it and it comes right behind them, before those served earlier. |
| `FeedCases.InboxRemovalAccounts` | event/feed.go:95-106 | An unsubscription answered by any case of its channel in the inbox leaves exactly one case for each subscription that still holds a channel. |
| `FeedCases.WaitingIsFound` | event/feed.go:108-116 | A subscription that waits to be removed still has a case of its channel among the send cases, so the lookup never misses, however often the channel is held. |
| `FeedCases.ServeBalances` | event/feed.go:149-171 | Serving a case moves it from the active to the served ones of its channel and nothing else. |
| `FeedCases.RemovalBalances` | event/feed.go:161-167 | Removing a case during a send takes it from the active ones if it was not served yet, and from the served tally not at all. |
| `FeedCases.CaseRemovalAccounts` | event/feed.go:108-116 | An unsubscription answered from the send cases leaves exactly one case for each subscription that still holds a channel. |
| `FeedCases.CaseRemovalShared` | event/feed.go:161-167 | During a send the send cases of a channel stay exactly the holders from the start plus the crossings, whoever is removed. |
| `FeedCases.InboxRemovalShared` | event/feed.go:95-106 | The same when an unsubscription is answered from the inbox: one of a holder from the start is one more crossing. |
| `FeedCases.NoHolderLeft` | event/feed.go:120-180 | No holder from the start is left on a channel if and only if all send cases of the channel stand for unsubscriptions that were answered from the inbox. |
| `FeedCases.CrossingNeedsTwo` | event/feed.go:95-106 | A holder from the start is answered from the inbox only if its channel is held twice at that moment. |
| `FeedCases.LaterNotTold` | event/feed.go:120-180 | A value on a channel held once at a time during the send is sent when no later subscription holds the channel. |
| `FeedCases.SendDelivers` | event/feed.go:120-180 | A finished send, for every channel however often it is held: at least one value for each subscription there from start to end, one value or one dropped case for each there at the start, every value sent while a holder from the start is left unless an unsubscription was answered from the inbox. For every subscription: there from start to end, it hears of every value on its channel; on a channel held once at a time during the send that is exactly one, one that leaves hears of at most one and one that comes later of none. nsent is the total. |
| `EventFeed.Feed.constructor` | event/feed.go:60-70 | A feed starts without subscriptions. |
| `EventFeed.Feed.Subscribe` | event/feed.go:73-93 | Adds one case to the inbox, where a running send does not look. |
| `EventFeed.Feed.RemoveFromInbox` | event/feed.go:95-106 | The first case of the channel in the inbox is removed, whichever subscription put it there, or the removal is left pending. |
| `EventFeed.Feed.RemoveUnlocked` | event/feed.go:108-116 | With the lock free a pending removal finds and deletes the first case of its channel. |
| `EventFeed.Feed.SelectRemove` | event/feed.go:161-167 | A removal during a blocked send finds the first case of its channel and shrinks the active prefix exactly if that case was in it. |
| `EventFeed.Feed.BeginSend` | event/feed.go:128-144 | The inbox joins the cases, all become active, nothing is served yet. |
| `EventFeed.Feed.TrySend` | event/feed.go:149-155 | Offers the value to the case at hand; a served case is replaced by the last active one, which is tried next. |
| `EventFeed.Feed.EndPass` | event/feed.go:156-160 | When a pass leaves nothing active the send ends and is reported, having kept its promise on every channel and to every subscription; otherwise it blocks. |
| `EventFeed.Feed.SelectSend` | event/feed.go:168-171 | A receiver that becomes ready is served and counted once. |
| `EventFeed.Feed.Run` | event/feed.go:86-180 | Under every interleaving of sends, subscriptions and both halves of removals, also of channels subscribed twice, there is one report for each send that finished, and every report says that the promise was kept. |
| `EventFeed.ServedAfterRemoval` | event/feed.go:95-106 | From every state in which a send waits for the only holder of a channel from its start, a second subscription and the unsubscription of the first lead to a value sent when only the later one holds the channel. |
| `EventFeed.LateHolderServed` | event/feed.go:95-106 | A concrete run that gets there. |
| `Heaps.UpRestores` | metrics/sample.go:418-427 | Sifting up restores the heap order and permutes the elements. |
| `Heaps.DownRestores` | metrics/sample.go:429-445 | Sifting down restores the heap order among the first n elements, permutes them and leaves the rest alone. |
| `Heaps.RootIsFirst` | miner/ordering.go:122-127 | No element of a heap precedes its root. |
| `Heaps.PushKeepsHeap` | p2p/util.go:40-42 | Pushing keeps the heap and adds exactly the element. |
| `Heaps.PopKeepsHeap` | p2p/util.go:55-62 | Popping returns the root, keeps the heap and removes exactly the root. |
| `Heaps.ReplaceRootKeepsHeap` | miner/ordering.go:130-140 | Replacing the root and fixing the heap keeps it a heap and exchanges exactly the two elements. |
| `Heaps.InitMakesHeap` | miner/ordering.go:98-119 | Initialisation makes a heap of the same elements. |
| `Reservoir.InsertedDropsLightest` | metrics/sample.go:113-141 | A full update drops exactly one sample of least weight and adds the new one; otherwise it only adds. |
| `Reservoir.PushAllIsHeap` | metrics/sample.go:130-140 | Pushing a list makes a heap of exactly its samples. |
| `Reservoir.ScaledKeepsValues` | metrics/sample.go:130-140 | Scaling changes every weight once and no value. |
| `Reservoir.UpdateEffect` | metrics/sample.go:113-141 | An update with its rescale yields a heap of the scaled samples, each scaled once, of the right size, and keeps the multiset of values. |
| `Reservoir.RescaledAsDrawn` | metrics/sample.go:113-141 | With a function that turns sums into products for the exponential, a rescaled sample is the one that would have been drawn with the new landmark. |
| `Reservoir.UpdateKeepsDrawn` | metrics/sample.go:113-141 | Every sample an update leaves, rescaled or not, is that of an observation, weighted by its age at the current landmark. |
| `Reservoir.SampleHeap.constructor` | metrics/sample.go:378-380 | An empty heap over a backing array of the given capacity. |
| `Reservoir.SampleHeap.MoveUp` | metrics/sample.go:418-427 | The in-place loop computes the sift-up function and does not touch the array beyond the heap. |
| `Reservoir.SampleHeap.MoveDown` | metrics/sample.go:429-445 | The in-place loop computes the sift-down function, right child on ties, and does not touch the array beyond the heap. |
| `Reservoir.SampleHeap.Push` | metrics/sample.go:392-397 | Grows the heap by one element in the backing array; the array beyond is untouched. |
| `Reservoir.SampleHeap.Pop` | metrics/sample.go:399-408 | Returns the root and leaves the rest a heap in the same array. |
| `Reservoir.SampleHeap.Rescale` | metrics/sample.go:130-140 | Rebuilding the heap in the very array the old samples are read from loses none and scales each once. |
| `Reservoir.ExpDecaySample.constructor` | metrics/sample.go:51-63 | An empty reservoir. |
| `Reservoir.ExpDecaySample.Update` | metrics/sample.go:113-141 | Keeps a min-heap within the reservoir size; evicts the minimum when full; after an hour every weight is scaled once and the values are kept. |
| `Reservoir.ExpDecaySample.Run` | metrics/sample.go:107-141 | Every sequence of updates keeps a min-heap within the reservoir size; with a function that turns sums into products for the exponential, every sample in it is that of an observation made, weighted by its age at the current landmark, however often it was rescaled. |
| `ProtocolMatching.CmpIsTotalOrder` | p2p/protocol.go:82-93 | The capability order is total: antisymmetric, transitive, and zero exactly on equal capabilities. |
| `ProtocolMatching.ComparesByDictionary` | p2p/protocol.go:82-93 | The comparison of names is that of a dictionary: at the first difference the lower byte comes first, and a name before its continuations. |
| `ProtocolMatching.PlanIsBest` | p2p/peer.go:388-410 | Every matched name is planned once, with its highest matched version, names rising. |
| `ProtocolMatching.PlanMembers` | p2p/peer.go:388-410 | Of the matched protocols exactly those with the highest version of their name are planned. |
| `ProtocolMatching.BothEndsPlanTheSame` | p2p/peer.go:388-410 | If the two ends agree on the lengths of shared capabilities, they plan the same protocols in the same order. |
| `ProtocolMatching.RangesDisjoint` | p2p/peer.go:388-410 | No message code belongs to two protocols. |
| `ProtocolMatching.RangesTile` | p2p/peer.go:388-410 | The ranges tile the codes from 16 to the end of the plan. |
| `ProtocolMatching.LayoutStep` | p2p/peer.go:394-408 | One match: a lower version of the same name gives its range back before the higher one takes it. |
| `ProtocolMatching.LayoutIsUnique` | p2p/peer.go:388-410 | The running table is determined by the plan. |
| `ProtocolMatching.LaidOutInOrder` | p2p/peer.go:388-410 | The layout read off: the first code is 16 and each protocol starts where the one before it in the order of names ends. |
| `ProtocolMatching.MatchProtocols` | p2p/peer.go:388-410 | The loop over sorted capabilities ends with exactly the layout of the plan. |
| `ProtocolMatching.GetProto` | p2p/peer.go:440-447 | Whatever the order of the map, the protocol owning the code is found, or none exists. |
| `ProtocolMatching.OwnerIsUnique` | p2p/peer.go:440-447 | At most one running protocol owns a code. |
| `ProtocolMatching.Connect` | p2p/peer.go:388-410 | Both ends of a connection compute the same table: the highest shared version of every shared name and nothing else, in dictionary order of the names, the first from code 16 and each from where the one before it ends. |
| `ProtocolMatching.MessagesArrive` | p2p/peer.go:459-490 | A code written by a protocol on one end is delivered to the same protocol on the other end, unchanged. |
| `ProtocolMatching.Deliver` | p2p/peer.go:440-490 | End to end: both ends connect, one writes, the other looks the code up and reads; what is accepted arrives at the same protocol with the same code, and it is accepted exactly when the highest shared version of the name is long enough. |
| `DialScheduler.Add` | p2p/util.go:40-42 | Adding keeps the expiry heap and adds exactly the entry. |
| `DialScheduler.TakeFirst` | p2p/util.go:55-62 | Takes out an entry that no other precedes, and nothing else. |
| `DialScheduler.StartKeepsSpacing` | p2p/dial.go:439-448 | A node without history entry was last started more than the expiration ago. |
| `DialScheduler.Record` | p2p/dial.go:439-448 | Recording a start keeps all starts spaced, remembered until they expire, and proper, and blocks exactly that node. |
| `DialScheduler.Expire` | p2p/util.go:55-62 | Only an expired entry is forgotten; at most its node is unblocked. |
| `DialScheduler.RunningCount` | p2p/dial.go:310-312 | There are exactly as many running tasks as dialing entries. |
| `DialScheduler.ConnectedStep` | p2p/dial.go:256-274 | Connected according to the events: added and not removed since. |
| `DialScheduler.StaticStep` | p2p/dial.go:276-298 | Static according to the events: added and not removed since. |
| `DialScheduler.ReflectsStep` | p2p/dial.go:256-298 | What an event must do to peers, outbound count and static nodes for them to agree with the events received. |
| `DialScheduler.DialScheduler.constructor` | p2p/dial.go:161-183 | An idle scheduler; a limit of zero active dials becomes the default. |
| `DialScheduler.DialScheduler.AddToStaticPool` | p2p/dial.go:418-424 | Appends the task and its own index; never called for a pooled task. |
| `DialScheduler.DialScheduler.RemoveFromStaticPool` | p2p/dial.go:428-436 | Moves the last task into the slot, also when it is the last; slots and indexes stay inverse. |
| `DialScheduler.DialScheduler.UpdateStaticPool` | p2p/dial.go:411-416 | Afterwards the pool holds exactly the static tasks that pass the dial check. |
| `DialScheduler.DialScheduler.CheckedIsWarranted` | p2p/dial.go:362-398 | A dial that passes the check while a slot is free is in order by the events received: node not connected, active and peer limits not reached, address admitted by the network restriction, port known. |
| `DialScheduler.DialScheduler.StartDial` | p2p/dial.go:439-448 | Enters the task as running and in the history and logs the start; the active dials stay within the limit. |
| `DialScheduler.DialScheduler.StartPooled` | p2p/dial.go:400-408 | Starting a pooled task and taking it out restores the whole invariant. |
| `DialScheduler.DialScheduler.StartStaticDials` | p2p/dial.go:400-408 | Starts as many tasks as there are slots and pooled tasks, in any random order. |
| `DialScheduler.DialScheduler.Launch` | p2p/dial.go:231-238 | Dynamic nodes are listened to only while slots are free, and then the static pool is empty. |
| `DialScheduler.DialScheduler.HandleNode` | p2p/dial.go:243-248 | A discovered node is dialed exactly when the check passes. |
| `DialScheduler.DialScheduler.Resolve` | p2p/dial.go:495-521 | A running task may change its endpoint; the invariant holds, because its node is not in the pool. |
| `DialScheduler.DialScheduler.HandleDone` | p2p/dial.go:250-254 | A finished task leaves the dialing set and may return to the pool. |
| `DialScheduler.DialScheduler.HandlePeerAdded` | p2p/dial.go:256-267 | A connected node leaves the pool; dialed connections are counted; the books agree with the events including this one. |
| `DialScheduler.DialScheduler.HandlePeerRemoved` | p2p/dial.go:269-274 | A disconnected node may return to the pool; dialed connections are counted; the books agree with the events including this one. |
| `DialScheduler.DialScheduler.HandleAddStatic` | p2p/dial.go:276-287 | A new static node gets a task, pooled if it passes the check; a known one is left alone. |
| `DialScheduler.DialScheduler.HandleRemoveStatic` | p2p/dial.go:289-298 | Exactly that static task is forgotten, also from the pool. |
| `DialScheduler.DialScheduler.ExpireHistory` | p2p/dial.go:354-360 | Every entry expired before now is dropped and every other one stays, and tasks that became usable are pooled. |
| `DialScheduler.DialScheduler.Shutdown` | p2p/dial.go:309-313 | Exactly as many completions are received as there are dialing entries, each receipt has a running task to come from, and none is left. |
| `DialScheduler.DialScheduler.HandleNotice` | p2p/dial.go:256-301 | Each of these events is received as itself, starts and ends no dial, and only the timer changes the history, after which no expired entry is left. |
| `DialScheduler.DialScheduler.Handle` | p2p/dial.go:243-301 | A discovered node is dialed exactly when a slot is free and the check passes, a finished task leaves the dialing set, and no other event starts or ends a dial. |
| `DialScheduler.DialScheduler.Turn` | p2p/dial.go:231-301 | One turn of the loop receives exactly its event and keeps the invariant. |
| `DialScheduler.DialScheduler.Run` | p2p/dial.go:224-307 | Over every sequence of events with a clock that does not go back: slots and indexes inverse, pool exactly the usable static tasks, running tasks one to one with dialing entries and within the limit, starts of one node more than the expiration apart. Peers, outbound connections and static nodes are exactly what the received events say, and by the events received before it no start ever went to this node, a connected node, beyond the active or the peer limit, or outside the network restriction. |
| `Gas.GasPool.AddGas` | core/gaspool.go:29-35 | Adds to the pool; the panic condition is a precondition that every caller must meet. |
| `Gas.GasPool.SubGas` | core/gaspool.go:39-45 | Refuses exactly when there is too little and then changes nothing. |
| `Gas.GasPool.SetGas` | core/gaspool.go:53-55 | Sets the pool. |
| `Gas.ToWordSize` | core/state_transition.go:114-120 | The least number of 32-byte words that hold the size, over the whole 64-bit range. |
| `Gas.CountStorageKeys` | core/types/tx_dynamic_fee.go:40-46 | The number of storage keys of an access list. |
| `Gas.NonZeroCounts` | core/state_transition.go:78-84 | The bytes counted as nonzero are as many as there are places with a byte other than zero. |
| `Gas.GuardIsExact` | core/state_transition.go:85-104 | The guard by division fires exactly when the sum would not fit in 64 bits. |
| `Gas.IntrinsicGas` | core/state_transition.go:67-111 | Refused exactly when the true data cost exceeds 64 bits; otherwise the true cost modulo 2^64, equal to it exactly when it fits. |
| `WorldState.TotalUpdate` | core/zvm.go:122-125 | Changing one account changes the total balance by exactly the change of that account. |
| `StateTransition.PriceSplits` | core/state_transition.go:157-159 | With the fee cap at least the base fee, the price paid is the base fee plus the tip credited, and the tip is not negative. |
| `StateTransition.TransferIsCovered` | core/state_transition.go:225-245 | After buying gas the sender can still pay the value and no account is overdrawn, so the later transfer check cannot fail. |
| `StateTransition.TransferNeverFails` | core/state_transition.go:347-350 | For a message with its offered price the later transfer check is never the reason of a refusal. |
| `StateTransition.CoinbaseGains` | core/state_transition.go:375-385 | The last step raises the balance of the coinbase by exactly the fee, also when the coinbase is the sender. |
| `StateTransition.TotalFalls` | core/state_transition.go:307-392 | Buying, refunding and tipping together lower the total balance by exactly the base fee of the gas used. |
| `StateTransition.PaidIsSolvent` | core/state_transition.go:373-392 | Refund and tip overdraw no account and move no nonce. |
| `StateTransition.RefundIsCapped` | core/state_transition.go:394-400 | The refund is the largest that is at most what was earned and a fifth of the gas consumed before it. |
| `StateTransition.VerdictIsExact` | core/state_transition.go:247-357 | The checks in order accept exactly the messages that meet the conditions of the protocol, written out without their order, and refuse any other with the violated condition that comes first. |
| `StateTransition.PlainTransfer` | core/state_transition.go:338-345 | A plain transfer with exactly 21000 gas is accepted, and with one unit less refused for its intrinsic gas. |
| `StateTransition.IdleBehaves` | core/vm/zvm.go:353-366 | What is assumed of the machine can be met: a machine that only raises the nonce of a creation's sender behaves. |
| `StateTransition.AppliedSafely` | core/state_transition.go:307-392 | Every applied message with its offered price: total balance falls by gas used times base fee (by nothing for a free simulated call), no account is overdrawn, the nonce of a sender without code rises by one, no other key's nonce moves, and at most the gas limit is used. |
| `StateTransition.StateTransition.BuyGas` | core/state_transition.go:225-245 | Fails for funds below gas limit times fee cap plus value, then for a short pool, leaving all as it was; otherwise charges the price. |
| `StateTransition.StateTransition.PreCheck` | core/state_transition.go:247-295 | Returns the first failed check in order, leaving state and pool alone, or buys the gas. |
| `StateTransition.StateTransition.RefundGas` | core/state_transition.go:394-409 | Neither the remaining gas nor the pool can overflow; the pool gets back what is not used. |
| `StateTransition.StateTransition.TransitionDb` | core/state_transition.go:307-392 | For any message, succeeds exactly when the conditions of the protocol hold (nonce, code, caps, base fee, funds for gas limit times fee cap plus value, pool, data cost in 64 bits, intrinsic gas, transfer, init code size), and otherwise fails with the first violated one; on success the stated execution, refund and tip, the pool lowered by the gas used and the coinbase's gain recorded. |
| `StateTransition.ApplyMessage` | core/state_transition.go:172-174 | One message as a whole: applied if and only if the written-out conditions hold, refused with an error if and only if that is the first violated one; pool and tip, and for a message with its offered price solvency and total balance lowered by exactly what is burnt. |
| `BlockProcessing.CumulativeAppend` | core/state_processor.go:106-121 | The counter value stored in a new receipt is the prefix sum of gas. |
| `BlockProcessing.LedgerStep` | core/state_processor.go:95-134 | One more transaction keeps the ledger: pool plus used gas is the limit, cumulative gas is the prefix sum, the balance lost is what was burnt, the tips are what was paid for gas less what was burnt, and each key's nonce is its parent nonce plus its transactions. |
| `BlockProcessing.ApplyTransaction` | core/state_processor.go:95-149 | Applied exactly when not refused; the receipt carries the gas used and the new counter, which cannot overflow. |
| `BlockProcessing.ApplyNext` | core/state_processor.go:74-87 | The next transaction of a block keeps the ledger or is refused for the stated reason. |
| `BlockProcessing.Process` | core/state_processor.go:58-93 | The block is processed exactly if no transaction is refused in its turn; the ledger holds for all applied ones and the error is that of the first refused. |
| `TxOrdering.UniqueAccounts` | miner/ordering.go:86-91 | No two heads belong to one account. |
| `TxOrdering.FirstIsBest` | miner/ordering.go:59-67 | The first head offers the most, and of those that offer as much it arrived first. |
| `TxOrdering.Gather` | miner/ordering.go:98-109 | Whatever the order of the map: heads are exactly the affordable first transactions, unaffordable accounts are deleted, the other lists lose their first. |
| `TxOrdering.DropReady` | miner/ordering.go:145-147 | Popping keeps heap, uniqueness and the split of every list into emitted, head and rest. |
| `TxOrdering.ReplaceReady` | miner/ordering.go:130-140 | Shifting keeps heap, uniqueness and the split of every list into emitted, head and rest. |
| `TxOrdering.LeftUpdate` | miner/ordering.go:130-140 | Taking a transaction from a list lowers the number of waiting transactions by exactly one. |
| `TxOrdering.GatheredAccounted` | miner/ordering.go:98-119 | At the start every account has its first transaction among the heads, unless that cannot pay the base fee. |
| `TxOrdering.EmitAccounted` | miner/ordering.go:130-147 | Consuming the first head leaves every account with its next transaction among the heads, through with its list, at one that cannot pay the base fee, or dropped; a dropped account has no head. |
| `TxOrdering.TransactionsByPriceAndNonce.constructor` | miner/ordering.go:98-119 | A valid heap with exactly one head per affordable account and nothing emitted or dropped. |
| `TxOrdering.TransactionsByPriceAndNonce.Peek` | miner/ordering.go:122-127 | The head that offers the most, and of those that offer as much the first arrived, or none when there is none; what a head offers is the smaller of its tip cap and what its fee cap leaves above the base fee, and no head has a fee cap below the base fee. |
| `TxOrdering.TransactionsByPriceAndNonce.Shift` | miner/ordering.go:130-140 | The head is emitted and replaced by its successor if that can pay the base fee; no account is dropped, so the account has its next transaction among the heads, is through with its list, or is at one that cannot pay; what is reachable shrinks. |
| `TxOrdering.TransactionsByPriceAndNonce.Pop` | miner/ordering.go:145-147 | The head is emitted and its account dropped, to have no head again; nothing else changes. |
| `BlockBuilding.TotalFees` | miner/worker.go:318-325 | The loop over transactions and receipts adds up the effective tips of the gas used. |
| `BlockBuilding.Split` | miner/worker.go:293-300 | Each pending account's whole list goes to the local side or the remote side, never both. |
| `BlockBuilding.HistoryGrows` | miner/worker.go:184-207 | From the parent state and a full pool, each transaction of the block ran, accepted, in the state and pool the one before it left. |
| `BlockBuilding.TryOne` | miner/worker.go:232-270 | One more transaction tried: exactly the emitted places have a fate, and exactly the last fate of a dropped account made it be dropped. |
| `BlockBuilding.NothingPassedOver` | miner/worker.go:215-274 | When no head is left or less than 21000 gas, every transaction of the lists was tried or left for one of the stated reasons. |
| `BlockBuilding.FilledTwice` | miner/worker.go:303-313 | What the local and the remote filling leave together accounts for all the pending lists. |
| `BlockBuilding.Environment.constructor` | miner/worker.go:169-182 | An empty block on the parent state has a balanced ledger. |
| `BlockBuilding.Environment.ApplyTransaction` | miner/worker.go:196-207 | On failure state, pool and header gas are as before; on success the ledger includes the transaction and it ran where the one before it ended. |
| `BlockBuilding.Environment.CommitTransaction` | miner/worker.go:184-193 | A transaction is added with its receipt if and only if nothing refuses it in this state and pool; otherwise the refusal is returned and nothing at all changes. |
| `BlockBuilding.Environment.Attempt` | miner/worker.go:232-270 | Too little gas left, a transaction gone from the pool, or a refusal leave state and pool alone; otherwise it is added. Its account goes on exactly if it was added or its nonce was used up. |
| `BlockBuilding.Environment.TryBest` | miner/worker.go:232-270 | The best transaction is added if and only if it fits into the pool, is still there and is not refused in this state and pool; after that or a nonce used up the set moves on to the account's next transaction, and otherwise the account is dropped; the ledger stays balanced. |
| `BlockBuilding.Environment.CommitLoop` | miner/worker.go:215-274 | Terminates, because every pass shrinks what is reachable; stops only when interrupted, out of gas for any transaction, or out of transactions; the added transactions come from the set, those of one account in the order of its list and none twice. From an unused set, every transaction tried has the outcome that the state and pool of its turn call for, and if nothing interrupted it every other one was left because less than 21000 gas remained, it or one before it could not pay the base fee, or one before it made its account be dropped. |
| `BlockBuilding.Environment.CommitTransactions` | miner/worker.go:209-274 | Sets the pool up on first use and fills the block from the set, keeping the ledger, the order of each list and the account of every transaction. |
| `BlockBuilding.Environment.FillTransactions` | miner/worker.go:279-315 | For every pending set and every pattern of failures and interruptions: nonces consecutive per sender from the parent state, the added transactions of each account in the order of its pending list and none twice, gas within the limit and summed exactly, no account overdrawn, balance lowered by exactly the base fees; every pending transaction is in the block or left out for one of the stated reasons, with the state and pool of its turn. |
| `BlockBuilding.Environment.BlockFees` | miner/worker.go:318-325 | The fees reported for a block under construction equal the sum of the balance gains of the coinbase recorded each time a tip was credited, and the price paid for the gas used less the base fees burnt. |
| `BlockBuilding.Environment.Generate` | miner/worker.go:90-113 | The fees and the account of every pending transaction after filling the block from any pending set, whatever failed or interrupted it. |

## Left out

- The freezer, the transaction index tail, snap-sync details, safe and finalized markers, and crash consistency between batches: the tables are maps and a batch is one step.
- CanonicalChain.BlockChain.InsertBlockWithoutSetHead: validation and execution of a block are one predicate `Importable`, because their code would only add unrelated checks.
- CanonicalChain.BlockChain.WriteBlockAndSetHead: does not model the state commit and its errors, which happen before the tables change.
- CanonicalChain.BlockChain.SetCanonical: whether the state of a new head is there or could be recovered is a boolean parameter.
- HeaderChain.HeaderChain.constructor: does not model resuming at a stored head block.
- HeaderChain.HeaderChain.WriteHeaders: does not model the header and number caches; reads go to the store.
- HeaderRewind.Rewind: requires a parent-closed store with one genesis block, which `HeaderChain.HeaderChain.Sync` keeps; on other stores the rewind jumps to genesis and leaves headers behind gaps, and no clean statement holds.
- HeaderChain.HeaderChain.SetHead: the same requirement as `HeaderRewind.Rewind`.
- HeaderChain.HeaderChain.Run: imports only, without a stored parent; `HeaderChain.HeaderChain.Sync` mixes imports and rewinds.
- StateRewind.UpdateHead: does not model the snap block marker and the returned force flag.
- ChainIndexer.ChainIndexer.constructor: does not model loading a stored section count.
- ChainIndexer.ChainIndexer.NewHead: checkpoints, child indexers and throttling add cases without a harder statement.
- Products and offsets of section sizes and message codes are unbounded integers; their 64-bit overflow is not modelled.
- Slot 0 of the feed's select cases (the removal channel) is the step `SelectRemove`, not a case; `event/feedof.go` is the same algorithm and not repeated.
- Goroutines, locks and channels: replaced by atomic steps; fairness and liveness are not stated.
- The dialer's resolve delays, logging, and what a dial task does on the wire: a task may change its endpoint and finish at any time.
- Reservoir.ExpDecaySample.Update: a random draw of exactly zero, which gives an infinite weight, is not modelled; weights are real numbers.
- Reservoir.ExpDecaySample.Run: as `Reservoir.ExpDecaySample.Update`.
- The pool's filtering of pending transactions by tip: `FillTransactions` takes any pending lists that are not empty.
- Withdrawals and other work of the consensus engine when a block is finalized, logs and bloom filters of receipts.
- Negative or missing fee fields of a message, and blocks without a base fee in `StateTransition`: fees are natural numbers and the base fee is present.
