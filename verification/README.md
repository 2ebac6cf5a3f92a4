# Models of the test framework's hard parts

This project models the parts of the STF test framework and its tools where state,
protocols and arithmetic make behaviour hard to see from one function, and proves what
each part keeps over all inputs, states or runs. One module models one component:

- `KeyHash`, `Buckets`, `TableRuns`, `HashTable`: the chained hash table. `HashTable` is the
  pointer code on heap records (`next`, `key`, `data`, `occupied`), with slabs, a shared free
  chain and table rebuild; `Buckets` says what its operations do to the buckets, and every
  method of `HashTable` is proved against it; `TableRuns` shows that whole runs, of the
  specification and of table objects, behave as a map.
- `InsertLocks`, `LockCoupling`: its locks. `InsertLocks` is one insertion with failing
  acquisitions; `LockCoupling` interleaves any number of locate and delete calls, one lock
  or pointer step at a time.
- `SyncServer`, `Barrier`: the synchronisation server's handler, and the whole protocol of
  test parts, server and launcher with requests and replies in flight.
- `JournalPipe`: the journal multiplexer's byte machine and its bounded buffer.
- `Probe`: the clamped halving probe in its three variants.
- `TestGen`: the recursive test-matrix generator in both visiting orders.
- `WordList`: lists kept in one separator-joined string, edited by prefix and suffix removal.
- `Timeout`, `MkTree`: the time-limit parser and the directory-tree builder.
- `Wrappers`: what several modules share.

Code that changes state step by step is modelled by classes and loops; what a method does is
stated as a function of its old state, and the promises are proved about that function.
Optional values stand for null pointers, and sets of held locks for lock words.

Where the code and its comments disagree, the model follows the code, and lemmas say exactly
when the comments hold:

- `ht_delete_key` is described as returning the deleted entry's data; for a head with a chain
  it returns the promoted successor's (`Buckets.DeleteReturnsItsData`, `Buckets.DeleteReturnsOther`).
- Deleting a head without a chain returns with the bucket lock held
  (`LockCoupling.LeakingStep`, `LockCoupling.LeakBlocksForever`, `LockCoupling.LeakHappens`).
- A delete that cannot lock the free chain reports failure, but has changed its bucket: a
  match on a chain is left marked, and a match in a head slot is overwritten by its
  successor, which stays on the chain (`LockCoupling.FailedDelete`,
  `LockCoupling.FailedDeleteInTidyTable`, `LockCoupling.LostAtFreeChain`, `LockCoupling.LossHappens`).
- The barrier takes an empty target label for "no label yet", so a part at the empty label is
  let through with another (`Barrier.LockstepExactly`, `Barrier.EmptyLabelBreaksLockstep`).
- The level and description probes are said to need one table entry; they begin inside the
  table exactly when it has two or more (`Probe.BeginsInside`), so their contracts ask for two.
- A forced word addition or insertion drops a separator, so the next word of the same call is
  glued on (`WordList.ForcedExactly`, `WordList.ForcedTwoGlue`).
- Word replacement is said to ignore words that are not in the list; in an empty variable it
  puts the new word in (`WordList.ReplaceExactly`).
- A time limit with a wrong character after its first value is reported but not always refused:
  the units variable, which nothing has set, decides. If it holds "none" the rest is ignored;
  if it holds a unit the rest is read on as if that unit had been written, so "5-3" is accepted
  whatever it holds (`Timeout.WrongCharacterAccepted`, `Timeout.FiveMinusThree`).

## Model

| member | source | states |
|---|---|---|
| KeyHash.HashBytes | usr/src/tools/stf/contrib/hashtable/lib/libhashtable.c:605-634 | The loop computes the word-width shift-and-xor hash of the key, reduced below any positive table size. |
| KeyHash.HashIsLinear | usr/src/tools/stf/contrib/hashtable/lib/libhashtable.c:617-623 | For equal-length keys of any length the hash before the modulus of the bytewise xor is the xor of the hashes, in words of any width from 8 bits. |
| KeyHash.HashSeesLastWord | usr/src/tools/stf/contrib/hashtable/lib/libhashtable.c:617-623 | Only the last word-width bytes of a key reach the hash: any prefix may be put in front. |
| KeyHash.FoldForgets | usr/src/tools/stf/contrib/hashtable/lib/libhashtable.c:617-623 | Each byte shifts one more low bit out of reach of what the accumulator held before. |
| KeyHash.HashBits | usr/src/tools/stf/contrib/hashtable/lib/libhashtable.c:617-623 | Bit i of the hash before the modulus is the exclusive or of bit i of the last byte, bit i - 1 of the byte before, and so on. |
| KeyHash.ToNatWeighs | usr/src/tools/stf/contrib/hashtable/lib/libhashtable.c:627 | Bit k of a word weighs two to the k in the number the modulus is taken of. |
| KeyHash.ShortKeys | usr/src/tools/stf/contrib/hashtable/lib/libhashtable.c:617-627 | A one-byte key hashes to its byte modulo the table's size, a two-byte key before the modulus to the last byte xor the doubled first. |
| Buckets.FirstMatch | usr/src/tools/stf/contrib/hashtable/lib/libhashtable.c:1534-1593 | The position the chain walk stops at: the first record with the key, or the end when there is none. |
| Buckets.InsertIsGood | usr/src/tools/stf/contrib/hashtable/lib/libhashtable.c:1896-2102 | Insertion keeps every item in the bucket its key hashes to and, without duplicates allowed, keys distinct. |
| Buckets.InsertBag | usr/src/tools/stf/contrib/hashtable/lib/libhashtable.c:1896-2102 | Insertion adds exactly the new item to the multiset of items, or nothing when it is refused. |
| Buckets.DeleteBag | usr/src/tools/stf/contrib/hashtable/lib/libhashtable.c:2251-2328 | Deletion removes exactly the first item with the key from the multiset, or nothing when there is none. |
| Buckets.ReplaceBucket | usr/src/tools/stf/contrib/hashtable/lib/libhashtable.c:1896-2102 | Changing one bucket exchanges exactly its own items and its own chain length in the totals. |
| Buckets.ResizeIsGood | usr/src/tools/stf/contrib/hashtable/lib/libhashtable.c:1207-1302 | A resize leaves every item in its bucket of the new table and keeps keys distinct. |
| Buckets.ResizeBag | usr/src/tools/stf/contrib/hashtable/lib/libhashtable.c:1207-1302 | A resize to any size preserves the multiset of (key, data) pairs, with duplicates allowed or not. |
| Buckets.ResizeNeverRefused | usr/src/tools/stf/contrib/hashtable/lib/libhashtable.c:1212-1235 | No reinsertion of a resize ever meets a duplicate key. |
| Buckets.ResizeSameSize | usr/src/tools/stf/contrib/hashtable/lib/libhashtable.c:1207-1302 | At an unchanged size every head stays in place and every chain behind it is reversed. |
| Buckets.ResizeTwiceRestores | usr/src/tools/stf/contrib/hashtable/lib/libhashtable.c:1207-1302 | Two resizes at an unchanged size restore every chain exactly. |
| Buckets.VisitDistinct | usr/src/tools/stf/contrib/hashtable/lib/libhashtable.c:1211-1235 | Without duplicates the order a resize visits the table in has pairwise distinct keys across all buckets. |
| Buckets.VisitAt | usr/src/tools/stf/contrib/hashtable/lib/libhashtable.c:1211-1235 | Where the resize meets each item: later buckets first, each bucket from its head on. |
| Buckets.ResizedBucket | usr/src/tools/stf/contrib/hashtable/lib/libhashtable.c:1207-1302 | Each bucket of the rebuilt table: the first visited item of that bucket in the head slot, the others behind it, the last visited first. |
| Buckets.RegrowsExactly | usr/src/tools/stf/contrib/hashtable/lib/libhashtable.c:2129-2146 | An insertion rebuilds the table exactly when implicit resizing is on, the threshold was crossed and the insertion lengthened a chain. |
| Buckets.DeleteReturnsItsData | usr/src/tools/stf/contrib/hashtable/lib/libhashtable.c:2262-2290 | Delete hands back the deleted item's data exactly when the item is not a head with a chain behind it, or the successor's data is the same. |
| Buckets.DeleteReturnsOther | usr/src/tools/stf/contrib/hashtable/lib/libhashtable.c:2271-2290 | A concrete table on which delete hands back the promoted successor's data instead of the deleted item's. |
| TableRuns.LocateIsMembership | usr/src/tools/stf/contrib/hashtable/lib/libhashtable.c:1739-1778 | Without duplicates, locate finds a datum for a key exactly when that pair is somewhere in the table. |
| TableRuns.LocateReadsMap | usr/src/tools/stf/contrib/hashtable/lib/libhashtable.c:1739-1778 | On a table that represents a map, locate is the map lookup and an insertion is refused exactly for present keys. |
| TableRuns.InsertRepresents | usr/src/tools/stf/contrib/hashtable/lib/libhashtable.c:1820-2157 | Insertion extends the represented map for an absent key and changes nothing for a present one. |
| TableRuns.ResizeRepresents | usr/src/tools/stf/contrib/hashtable/lib/libhashtable.c:1138-1422 | Resize leaves the represented map unchanged. |
| TableRuns.DeletedIsGone | usr/src/tools/stf/contrib/hashtable/lib/libhashtable.c:2183-2384 | After a delete without duplicates the key is not found. |
| TableRuns.DeleteRepresents | usr/src/tools/stf/contrib/hashtable/lib/libhashtable.c:2183-2384 | Delete removes exactly its key from the represented map. |
| TableRuns.StepRefines | usr/src/tools/stf/contrib/hashtable/lib/libhashtable.c:1138-2384 | Each insert, locate, delete or resize does on the represented map what the map operation does, with the same outcome. |
| TableRuns.RunRefines | usr/src/tools/stf/contrib/hashtable/lib/libhashtable.c:1138-2384 | Any sequence of operations from a table representing a map gives the map's answers and ends representing the map's result. |
| TableRuns.TableIsAMap | usr/src/tools/stf/contrib/hashtable/lib/libhashtable.c:665-761 | Every run from a created table, with explicit and implicit resizes, answers as a plain map does and ends holding exactly the map's pairs. |
| TableRuns.Apply | usr/src/tools/stf/contrib/hashtable/lib/libhashtable.c:1138-2384 | One operation on a table object has the outcome, contents and peak of the specification. |
| TableRuns.Operate | usr/src/tools/stf/contrib/hashtable/lib/libhashtable.c:665-2384 | Any sequence of operations on a new table object gives a map's outcomes, ends holding exactly the map's pairs, and leaves as many overflow slabs as the largest number of chained items since the last rebuild needs. |
| TableRuns.PeakIsPeak | usr/src/tools/stf/contrib/hashtable/lib/libhashtable.c:2023-2072 | The peak kept step by step is the largest number of items in chains at any point from the last rebuild on. |
| HashTable.CreateSlab | usr/src/tools/stf/contrib/hashtable/lib/libhashtable.c:490-539 | A slab is a list of distinct new records, unoccupied and unlinked. |
| HashTable.WalkChain | usr/src/tools/stf/contrib/hashtable/lib/libhashtable.c:1499-1636 | The pointer walk ends at the first record with the key, with its predecessor, or at null. |
| HashTable.FindDuplicate | usr/src/tools/stf/contrib/hashtable/lib/libhashtable.c:1931-1984 | The duplicate walk stops at a match exactly when duplicates are refused and the bucket has the key. |
| HashTable.Create | usr/src/tools/stf/contrib/hashtable/lib/libhashtable.c:665-761 | Creating a table with zero entries fails; otherwise the table is new, empty and valid, with no overflow slab and a peak of zero. |
| HashTable.HashTable.constructor | usr/src/tools/stf/contrib/hashtable/lib/libhashtable.c:665-761 | A created table is empty, satisfies the whole ownership invariant, has the table itself as its only slab and a peak of zero. |
| HashTable.HashTable.LocateEntry | usr/src/tools/stf/contrib/hashtable/lib/libhashtable.c:1662-1709 | The record found and its predecessor are those at the first match of the key's bucket. |
| HashTable.HashTable.LocateKey | usr/src/tools/stf/contrib/hashtable/lib/libhashtable.c:1739-1778 | The data returned are those of the first match, or none; nothing changes. |
| HashTable.HashTable.Dangle | usr/src/tools/stf/contrib/hashtable/lib/libhashtable.c:2049-2056 | A new record goes in front of the free chain and the ownership invariant is kept. |
| HashTable.HashTable.Refill | usr/src/tools/stf/contrib/hashtable/lib/libhashtable.c:2023-2068 | When the free chain is empty one slab of new records, of the table's size, is put in front of the slab list, and the free chain becomes its records in order. |
| HashTable.HashTable.FillHead | usr/src/tools/stf/contrib/hashtable/lib/libhashtable.c:1896-1923 | An unoccupied head slot takes the item; the bucket then holds exactly it. |
| HashTable.HashTable.HangEntry | usr/src/tools/stf/contrib/hashtable/lib/libhashtable.c:2070-2102 | The first free record is taken off the free chain and linked right behind the head, with the item; the peak is raised when the chains outgrow it. |
| HashTable.HashTable.InsertKey | usr/src/tools/stf/contrib/hashtable/lib/libhashtable.c:1820-2157 | The pointer code inserts exactly as the bucket specification does, returns 0 or -1 accordingly and keeps the invariant; the table doubles and the peak is counted anew exactly when implicit resizing is on, the threshold was crossed and a chain was lengthened; else the table stays and the peak is raised when the chains outgrow it. |
| HashTable.HashTable.Resize | usr/src/tools/stf/contrib/hashtable/lib/libhashtable.c:1138-1422 | The table is rebuilt by reinsertion to exactly the specified resize, of the asked size and with its peak counted anew; size zero is refused with nothing changed. |
| HashTable.HashTable.TakeOver | usr/src/tools/stf/contrib/hashtable/lib/libhashtable.c:1240-1302 | The old table takes over the new one's slab list, free chain and records, and with them its contents. |
| HashTable.HashTable.DeleteKey | usr/src/tools/stf/contrib/hashtable/lib/libhashtable.c:2183-2384 | The pointer code deletes exactly as the bucket specification does, never allocates, and returns the data of the record it unlinks. |
| HashTable.HashTable.Promote | usr/src/tools/stf/contrib/hashtable/lib/libhashtable.c:2271-2290 | The chain's first record is copied up into the head slot. |
| HashTable.HashTable.Unlink | usr/src/tools/stf/contrib/hashtable/lib/libhashtable.c:2292-2328 | The record leaves its chain and heads the free chain; the other records keep their order. |
| HashTable.OnePlaceEach | usr/src/tools/stf/contrib/hashtable/lib/libhashtable.c:1896-2102 | In every state that satisfies the invariant each record of each slab stands in exactly one place: one head slot, one position of one chain, or one position of the free chain. |
| HashTable.SlabRecords | usr/src/tools/stf/contrib/hashtable/lib/libhashtable.c:490-539 | The records of every slab are records in use. |
| HashTable.SlabsApart | usr/src/tools/stf/contrib/hashtable/lib/libhashtable.c:490-539 | The records of the slabs are pairwise different, within a slab and across slabs. |
| HashTable.HashTable.DangleAll | usr/src/tools/stf/contrib/hashtable/lib/libhashtable.c:2045-2056 | All records of a slab go to the free chain, in order, before those already there. |
| HashTable.RecordsMatchPlaces | usr/src/tools/stf/contrib/hashtable/lib/libhashtable.c:2251-2328 | Chained records are occupied and hash to their bucket, an unoccupied head has no chain, free records are unoccupied. |
| HashTable.SlabsMatchPeak | usr/src/tools/stf/contrib/hashtable/lib/libhashtable.c:2023-2072 | The number of overflow slabs is the peak divided by the slab size, rounded up, and chained plus free records are entrycount times the overflow slabs, so delete and reinsert below the peak never allocates; `TableRuns.PeakIsPeak` says what the peak is. |
| HashTable.HungPartition | usr/src/tools/stf/contrib/hashtable/lib/libhashtable.c:2070-2102 | Linking a free record behind a head keeps every record in exactly one place. |
| HashTable.UnlinkedPartition | usr/src/tools/stf/contrib/hashtable/lib/libhashtable.c:2292-2328 | Unlinking a record to the free chain keeps every record in exactly one place. |
| InsertLocks.Insertion.InsertKey | usr/src/tools/stf/contrib/hashtable/lib/libhashtable.c:1842-2123 | For every pattern of failing lock acquisitions and slab allocation no lock is held on return, locks are taken in the order table, head, free chain, 0 is returned only after inserting, -2 exactly for a failed lock, -1 exactly for a duplicate or a missing slab, every failure leaves the contents unchanged, and a lengthened chain takes one free record, of a new slab if there was none. |
| LockCoupling.StepKeepsInv | usr/src/tools/stf/contrib/hashtable/lib/libhashtable.c:1499-2384 | Each atomic step of a locate or delete call, with or without a failing lock, keeps the invariant of chains, locks and what each call knows. |
| LockCoupling.RunInv | usr/src/tools/stf/contrib/hashtable/lib/libhashtable.c:1499-2384 | The invariant holds in every state of every interleaving of any number of calls. |
| LockCoupling.OnChainIsLinked | usr/src/tools/stf/contrib/hashtable/lib/libhashtable.c:1516-1593 | The records reachable from a bucket's head are exactly the linked records of that bucket. |
| LockCoupling.LocatorKeepsItsMatch | usr/src/tools/stf/contrib/hashtable/lib/libhashtable.c:1516-1593 | In every run the record a locate call has matched stays locked on its bucket's chain under the matched key, with the data it answers, until the call releases it. |
| LockCoupling.NeverFollowsUnlinked | usr/src/tools/stf/contrib/hashtable/lib/libhashtable.c:1516-1593 | In every run each record a call is about to read, the record its pointer leads to, and the record whose lock it awaits are on the bucket's chain. |
| LockCoupling.DeleterPairAdjacent | usr/src/tools/stf/contrib/hashtable/lib/libhashtable.c:2203-2328 | In every run, from its match until it unlinks, a delete call's record and predecessor stay adjacent on the chain and locked by it (a head's successor once its lock is taken). |
| LockCoupling.LoopHeadHoldsTwo | usr/src/tools/stf/contrib/hashtable/lib/libhashtable.c:1516-1593 | At each head of the walk exactly the current record and its immediate predecessor are locked by the call. |
| LockCoupling.FinishedHoldsNothing | usr/src/tools/stf/contrib/hashtable/lib/libhashtable.c:1739-1778 | For any pattern of failing acquisitions a finished call holds a lock exactly when it deleted a head without a chain; a locate call never does. |
| LockCoupling.LeakingStep | usr/src/tools/stf/contrib/hashtable/lib/libhashtable.c:2262-2263 | A delete ends still holding the bucket lock exactly when its match is a head with nothing behind it. |
| LockCoupling.LeakBlocksForever | usr/src/tools/stf/contrib/hashtable/lib/libhashtable.c:2262-2263 | In every later state of a run a call that waited for that bucket still stands there and cannot take the lock, unless its own lock call fails. |
| LockCoupling.LeakHappens | usr/src/tools/stf/contrib/hashtable/lib/libhashtable.c:2262-2263 | A concrete run without any failing lock that ends with the bucket lock kept. |
| LockCoupling.FailedDelete | usr/src/tools/stf/contrib/hashtable/lib/libhashtable.c:2203-2328 | A call that reports failure has left every record as it was exactly when the acquisition that failed was not the free chain's, or its match was a chain record already marked. |
| LockCoupling.FailedDeleteInTidyTable | usr/src/tools/stf/contrib/hashtable/lib/libhashtable.c:2203-2328 | From a table without marked chain records, when no other call is refused the free chain's lock: exactly when the acquisition that failed was not the free chain's. |
| LockCoupling.LostAtFreeChain | usr/src/tools/stf/contrib/hashtable/lib/libhashtable.c:2271-2328 | What a delete refused the free chain's lock leaves: the match marked on its chain, or the head slot holding its successor's item with the marked successor still behind it. |
| LockCoupling.LossHappens | usr/src/tools/stf/contrib/hashtable/lib/libhashtable.c:2271-2328 | A concrete run in which a failed delete replaces the head's item by its successor's. |
| LockCoupling.FailureIsNamed | usr/src/tools/stf/contrib/hashtable/lib/libhashtable.c:1499-2384 | A step turns a call to failure exactly when the acquisition it makes fails, and the failure names that acquisition. |
| LockCoupling.FailureIsDue | usr/src/tools/stf/contrib/hashtable/lib/libhashtable.c:1499-2384 | In every run a call reports failure exactly when one of its acquisitions has failed. |
| LockCoupling.DeletesLoneHead | usr/src/tools/stf/contrib/hashtable/lib/libhashtable.c:2259-2264 | The step that reports a head deleted found the head occupied under the call's key without a chain, leaves it unoccupied, and changes no other record. |
| LockCoupling.SuccessfulDelete | usr/src/tools/stf/contrib/hashtable/lib/libhashtable.c:2183-2384 | In every run a delete that reported success has marked an item with its key; on a chain, the marked record (the match, or the successor whose item was copied over the head) was bypassed by its predecessor, turned to the free chain, and is on no chain. |
| LockCoupling.LogIsTrue | usr/src/tools/stf/contrib/hashtable/lib/libhashtable.c:2203-2328 | Each step changes exactly the records the call logs, from and to the contents logged. |
| LockCoupling.PushedOnFreeChain | usr/src/tools/stf/contrib/hashtable/lib/libhashtable.c:2326-2328 | In every run the record a delete pushes heads the free chain, points at its former head, and is unoccupied and unlinked. |
| LockCoupling.LocatorsShare | usr/src/tools/stf/contrib/hashtable/lib/libhashtable.c:1499-1593 | A locate call waits only for deletes: locate calls never block each other. |
| LockCoupling.DeleteWaits | usr/src/tools/stf/contrib/hashtable/lib/libhashtable.c:1499-1593 | A delete can take a lock exactly when no other call holds it. |
| LockCoupling.NoDeadlock | usr/src/tools/stf/contrib/hashtable/lib/libhashtable.c:1516-1593 | While a call is unfinished and no finished call kept a lock, some call can step. |
| LockCoupling.MissingByWalk | usr/src/tools/stf/contrib/hashtable/lib/libhashtable.c:1516-1593 | A walk that reports its key missing is right: at that moment no record reachable from the bucket's head has the key, whatever other calls do. |
| LockCoupling.MissingInTidyTable | usr/src/tools/stf/contrib/hashtable/lib/libhashtable.c:1499-1593 | From a table without marked chain records and with no chain behind an unoccupied head, until a call is refused the free chain's lock, every call that reports its key missing is right about the occupied records. |
| LockCoupling.RunStaysTidy | usr/src/tools/stf/contrib/hashtable/lib/libhashtable.c:2203-2328 | Such a table stays so, but for deletes under way. |
| LockCoupling.Ordered | usr/src/tools/stf/contrib/hashtable/lib/libhashtable.c:1516-1593 | Ranks order the records of a bucket as its chain does. |
| LockCoupling.MovesOfOne | usr/src/tools/stf/contrib/hashtable/lib/libhashtable.c:1499-2384 | In any run a call takes at most 18 steps and three per rank of its chain. |
| LockCoupling.RunsEnd | usr/src/tools/stf/contrib/hashtable/lib/libhashtable.c:1499-2384 | Every run of finitely many calls is finite, with a bound on its moves. |
| LockCoupling.AllFinish | usr/src/tools/stf/contrib/hashtable/lib/libhashtable.c:1499-2384 | A run that can go no further, in which no finished call kept a lock, has finished every call. |
| LockCoupling.Climb | usr/src/tools/stf/contrib/hashtable/lib/libhashtable.c:1516-1593 | Following holders along a chain ends at a call that can step. |
| SyncServer.SyncServer.HandleConnect | usr/src/tools/stf/bin/mstf_syncserv.exp:37-159 | Each command changes the server's globals and answers channels exactly as the request handler specified. |
| SyncServer.SyncServer.ReleaseIfComplete | usr/src/tools/stf/bin/mstf_syncserv.exp:105-113 | The barrier opens exactly when the open list has as many channels as parts remain. |
| SyncServer.HandleKeepsStore | usr/src/tools/stf/bin/mstf_syncserv.exp:46-81 | Every request keeps: waiters exist only for variables never set, no channel waits twice or in two places. |
| SyncServer.HandleAnswers | usr/src/tools/stf/bin/mstf_syncserv.exp:37-159 | A request answers only channels that were pending or just spoke, each once, and they are then no longer pending. |
| SyncServer.ServeAnswersOnce | usr/src/tools/stf/bin/mstf_syncserv.exp:37-159 | Over any sequence of requests no channel is answered twice. |
| SyncServer.NoChannelAnsweredTwice | usr/src/tools/stf/bin/mstf_syncserv.exp:46-81 | From the start, in every run every connection gets at most one answer. |
| SyncServer.AnswerIsCurrent | usr/src/tools/stf/bin/mstf_syncserv.exp:46-81 | A value answered to a reader is the value of the variable it asked for at that moment. |
| SyncServer.SetvAnswersAllWaiters | usr/src/tools/stf/bin/mstf_syncserv.exp:64-81 | A setv answers every waiter present, in order, with the new value, leaves none and touches no other variable's waiters. |
| SyncServer.ServeKeepsStore | usr/src/tools/stf/bin/mstf_syncserv.exp:37-159 | The order of the store holds after any sequence of requests. |
| SyncServer.WaitersOnlyWhenUnset | usr/src/tools/stf/bin/mstf_syncserv.exp:46-81 | In every run a variable has waiters only if no handled request set it. |
| SyncServer.WaiterAnswered | usr/src/tools/stf/bin/mstf_syncserv.exp:46-81 | A waiting reader is answered exactly when its variable is set later, with the first value it gets. |
| SyncServer.GetvAnswered | usr/src/tools/stf/bin/mstf_syncserv.exp:46-81 | In every run a handled getv is answered exactly when its variable is set before it or after it, with the last value before, else the first after, and gets nothing else. |
| SyncServer.ValuesAreLastSet | usr/src/tools/stf/bin/mstf_syncserv.exp:64-81 | A variable holds the value of the last handled setv. |
| SyncServer.SetStaysSet | usr/src/tools/stf/bin/mstf_syncserv.exp:46-81 | A variable once set stays set in every run. |
| SyncServer.StopCode | usr/src/tools/stf/bin/mstf_syncserv.exp:137-147 | A stop ends the server with Pass exactly when nobody waits, in the barrier or for a variable, and with Unresolved otherwise. |
| SyncServer.EndingCode | usr/src/tools/stf/bin/mstf_syncserv.exp:83-159 | Besides a stop, exactly a mismatching label and an invalid command end the server, always with Unresolved. |
| SyncServer.RefusalTellsEveryone | usr/src/tools/stf/bin/mstf_syncserv.exp:83-104 | A refusal tells failed to exactly the blocked channels and the refused one, and tells nobody anything else. |
| SyncServer.ServeEnds | usr/src/tools/stf/bin/mstf_syncserv.exp:37-159 | Over every run the server has ended with Pass exactly when its last handled request is a stop that found nobody waiting, with Unresolved exactly when it is a stop that found somebody, a mismatch or an invalid command. |
| Barrier.StepKeepsInv | usr/src/tools/stf/bin/mstf_syncserv.exp:83-135 | Every step of parts, server and launcher keeps the books between open list, remaining count and the parts' states. |
| Barrier.RunInv | usr/src/tools/stf/bin/mstf_syncserv.exp:83-135 | The invariant holds in every state of every run. |
| Barrier.Lockstep | usr/src/tools/stf/bin/mstf_syncserv.exp:83-135 | With non-empty labels, in every run unfinished parts have passed identical sequences of labels and a finished part's sequence is a prefix. |
| Barrier.LockstepExactly | usr/src/tools/stf/bin/mstf_syncserv.exp:83-135 | With labels of any kind, two unfinished parts have passed the same sequence, and a finished part a prefix, exactly when they used the empty label in the same rounds. |
| Barrier.FollowsRounds | usr/src/tools/stf/bin/mstf_syncserv.exp:83-135 | An unfinished part has passed one label per round, and exactly the rounds' labels if and only if it used the empty label only in rounds without a label. |
| Barrier.GoIsForAll | usr/src/tools/stf/bin/mstf_syncserv.exp:105-135 | A step that lets a part through lets through every part still counted, at one label or the empty one; no other step lets anyone through. |
| Barrier.CompleteMeansAll | usr/src/tools/stf/bin/mstf_syncserv.exp:105-135 | The open list is as long as the remaining count exactly when every remaining part is blocked. |
| Barrier.ReleaseDelivers | usr/src/tools/stf/bin/mstf_syncserv.exp:105-113 | A release tells go to exactly the blocked parts and extends each one's sequence by its label. |
| Barrier.NeverAllBlocked | usr/src/tools/stf/bin/mstf_launch.exp:306-340 | In every run, while the server lives and nothing is in flight, some unfinished part is running its script, also after the barrier has shrunk. |
| Barrier.EmptyLabelBreaksLockstep | usr/src/tools/stf/bin/mstf_syncserv.exp:83-104 | A concrete run with an empty label after which two unfinished parts have passed different labels. |
| Barrier.JoinWaits | usr/src/tools/stf/lib/libmstf.c:64-106 | When the request of a blocked caller fits the current label, the open list with the caller added holds exactly the blocked parts, and the remaining count still counts the parts not gone. |
| Barrier.RefusalIsForAll | usr/src/tools/stf/bin/mstf_syncserv.exp:83-104 | A part asking for another label than the one waited for: it and every blocked part are told failed, each at its own label, nobody's sequence grows, the others hear nothing, and the server ends with Unresolved. |
| Barrier.ServerEndsBy | usr/src/tools/stf/bin/mstf_launch.exp:306-340 | The server ends only by a mismatching sync, by the finish of a part whose sync failed, or by the launcher's closing stop. |
| Barrier.ClosingStop | usr/src/tools/stf/bin/mstf_syncserv.exp:137-147 | The closing stop finds nobody in the barrier, so it ends with Pass exactly when nobody waits for a variable. |
| Barrier.FinishedIsDiscounted | usr/src/tools/stf/bin/mstf_syncserv.exp:118-135 | A finished part that passed is taken off the count, and the server goes on. |
| JournalPipe.SplitChunk | usr/src/tools/stf/bin/stf_jnl_context.c:285-408 | Reading a chunk in two pieces, cut anywhere, gives the same output and state. |
| JournalPipe.RunConcat | usr/src/tools/stf/bin/stf_jnl_context.c:285-408 | Output and state over a concatenated input are those of the parts in turn. |
| JournalPipe.StepConserves | usr/src/tools/stf/bin/stf_jnl_context.c:300-408 | For each of three streams, what one byte puts out and leaves pending is what was pending and what the byte owes. |
| JournalPipe.RunConserves | usr/src/tools/stf/bin/stf_jnl_context.c:300-408 | Over any interleaving each stream comes out complete, in order and without duplicates, up to the line still buffered. |
| JournalPipe.WholeRunConserves | usr/src/tools/stf/bin/stf_jnl_context.c:163-181 | With the final flush nothing stays behind in any stream. |
| JournalPipe.EveryByteOnce | usr/src/tools/stf/bin/stf_jnl_context.c:285-408 | After the final flush the journal holds every input byte exactly once, except the NULs on pipe 0. |
| JournalPipe.EntryIsOpened | usr/src/tools/stf/bin/stf_jnl_context.c:300-408 | A journal entry is open exactly when a NUL on pipe 0 came after the last newline on either pipe. |
| JournalPipe.OutComesThrough | usr/src/tools/stf/bin/stf_jnl_context.c:163-408 | In the whole journal the standard output lines and the journal entries are the characters of pipe 0 that came outside and inside of an entry, in order, as the input alone determines. |
| JournalPipe.ErrComesThrough | usr/src/tools/stf/bin/stf_jnl_context.c:163-408 | In the whole journal, final flush included, the standard error stream is exactly the bytes of pipe 1, in order. |
| JournalPipe.WholeRunAddsOnlyExpected | usr/src/tools/stf/bin/stf_jnl_context.c:163-408 | In the whole journal, final flush included, nothing is added but tags, newlines and the overflow warning. |
| JournalPipe.RunKeepsCtx | usr/src/tools/stf/bin/stf_jnl_context.c:336-403 | In every reachable state the pending line is NUL-free, below the limit, and present exactly when the tag was written. |
| JournalPipe.ContextFromInput | usr/src/tools/stf/bin/stf_jnl_context.c:300-408 | From the input alone: when an entry is open, a standard error line has begun or a newline is owed, and which standard output characters are unwritten. |
| JournalPipe.EachByte | usr/src/tools/stf/bin/stf_jnl_context.c:300-408 | What every byte puts out, by the input alone: the stderr tag exactly before the first byte of a line, a newline before an entry exactly when one is owed, each stdout line or full piece behind its tag, an entry's bytes as they are. |
| JournalPipe.FlushFromInput | usr/src/tools/stf/bin/stf_jnl_context.c:171-181 | The flush puts out the owed newline, and the unwritten characters with their tag and a newline, by the input alone. |
| JournalPipe.JournalContext.WriteBuffer | usr/src/tools/stf/bin/stf_jnl_context.c:384-387 | Writing up to the first NUL writes exactly the tracked length. |
| JournalPipe.JournalContext.Append | usr/src/tools/stf/bin/stf_jnl_context.c:370-381 | The tag is printed before the first byte of a line, and tag, line, byte and terminator fit the buffer. |
| JournalPipe.JournalContext.Overflow | usr/src/tools/stf/bin/stf_jnl_context.c:384-402 | A line that fills the buffer is written whole, with the warning behind it, and the buffer is reset. |
| JournalPipe.JournalContext.Buffer | usr/src/tools/stf/bin/stf_jnl_context.c:366-403 | A buffered byte keeps the buffer invariant and does what the byte specification says, also on overflow. |
| JournalPipe.JournalContext.EndLine | usr/src/tools/stf/bin/stf_jnl_context.c:334-352 | A newline writes the tagged line and empties the buffer. |
| JournalPipe.JournalContext.PutByte | usr/src/tools/stf/bin/stf_jnl_context.c:300-408 | One byte changes flags, buffer and output as specified and keeps the buffer invariant. |
| JournalPipe.JournalContext.WritePipe | usr/src/tools/stf/bin/stf_jnl_context.c:285-408 | A whole chunk does what its bytes do one after another. |
| JournalPipe.JournalContext.FinalFlush | usr/src/tools/stf/bin/stf_jnl_context.c:171-181 | The flush at the end writes the pending line with its newlines. |
| Probe.DescriptionFetch | usr/src/tools/stf/contrib/jnl/lib/libjnl.c:512-578 | On every strictly sorted table of two or more entries the probe ends, with the exact entry, else the next higher, else the last, in a logarithmic number of rounds. |
| Probe.LevelFetch | usr/src/tools/stf/contrib/jnl/lib/libjnl.c:616-685 | On every strictly sorted table of two or more entries the probe ends, with the exact entry, else the next lower, else the first, in a logarithmic number of rounds. |
| Probe.KeywordLocate | usr/src/tools/stf/contrib/hashtable/tests/basic.c:345-405 | On every non-empty strictly sorted table the probe returns the index when the keyword is present and a negative value otherwise. |
| Probe.BeginsInside | usr/src/tools/stf/contrib/jnl/lib/libjnl.c:512-520 | The level probes begin inside the table exactly when it has two or more entries, the keyword probe when it has one. |
| Probe.HalvingsIsLog | usr/src/tools/stf/contrib/jnl/lib/libjnl.c:525-545 | The number of halvings is at most the logarithm of the distance, rounded up. |
| Probe.ShippedDescription | usr/src/tools/stf/contrib/jnl/lib/jnl_private.h:103-111 | On the shipped table every level gets the lowest entry at or above it, in at most seven rounds. |
| TestGen.Generator.AddCase | usr/src/tools/stf/include/testgen.kshlib:321-337 | A line is numbered and emitted exactly when the checker accepts it. |
| TestGen.Generator.ProcessParts | usr/src/tools/stf/include/testgen.kshlib:402-439 | The recursion from a component on emits exactly the accepted choices of the remaining lists, around the line so far, and restores the line. |
| TestGen.Generator.ProcessArgs | usr/src/tools/stf/include/testgen.kshlib:342-397 | The same for name and value lists of typed components. |
| TestGen.Generator.ProcessCaseline | usr/src/tools/stf/include/testgen.kshlib:445-481 | A caseline emits the whole accepted product of its lists, numbered from where the last one stopped; without components nothing; without a checker the j-th case is the choice the mixed-radix digits of j pick, in either order. |
| TestGen.Generator.ProcessCaseblock | usr/src/tools/stf/include/testgen.kshlib:541-560 | A case block emits the whole accepted product of its name and value lists, numbered from where the last one stopped; without components, or with an empty value list, nothing; without a checker the j-th case is the choice the digits of j pick. |
| TestGen.SkippedIsEmpty | usr/src/tools/stf/include/testgen.kshlib:562-571 | A block with an empty value list, which is skipped, has no lines. |
| TestGen.MixedRadix | usr/src/tools/stf/include/testgen.kshlib:402-439 | The choice at the position a digit vector writes is the choice those digits make. |
| TestGen.DigitsRoundTrip | usr/src/tools/stf/include/testgen.kshlib:402-439 | Digit vectors are numbers below the product of the list lengths, and are recovered from them. |
| TestGen.DigitsAreDigits | usr/src/tools/stf/include/testgen.kshlib:402-439 | Every position below the product is written by exactly one digit vector. |
| TestGen.ChosenCounts | usr/src/tools/stf/include/testgen.kshlib:402-439 | Each choice is made as often as the product of its values' multiplicities: the choices are the Cartesian product. |
| TestGen.AscendIsMixedRadix | usr/src/tools/stf/include/testgen.kshlib:301-313 | With GEN_ORDER "ascend" the line number is written with the last component as units. |
| TestGen.DefaultIsMixedRadix | usr/src/tools/stf/include/testgen.kshlib:301-313 | In the default order the line number is written with component 0 as units. |
| TestGen.OrdersAgree | usr/src/tools/stf/include/testgen.kshlib:301-313 | Each order makes each choice, component by component, equally often. |
| TestGen.OrdersEmitTheSameBag | usr/src/tools/stf/include/testgen.kshlib:301-313 | The two orders emit the same multiset of choices. |
| TestGen.OrdersEmitTheSameLines | usr/src/tools/stf/include/testgen.kshlib:402-439 | The two orders emit the same multiset of token lines, up to the spare blank. |
| TestGen.EmittedInOrder | usr/src/tools/stf/include/testgen.kshlib:402-439 | Without a checker the j-th case is numbered from + 1 + j and is the choice the digits of j pick. |
| TestGen.SameText | usr/src/tools/stf/include/testgen.kshlib:417-421 | For one choice the two orders compose the same text, up to the spare blank behind or in front. |
| TestGen.AcceptedInOrder | usr/src/tools/stf/include/testgen.kshlib:330-337 | Each accepted line gets the number of accepted lines before it: order is kept and nothing accepted is lost. |
| TestGen.OnlyAccepted | usr/src/tools/stf/include/testgen.kshlib:330-337 | Every emitted position belongs to an accepted line: no gaps. |
| TestGen.PairsAt | usr/src/tools/stf/include/testgen.kshlib:354-383 | A component's parts are every name with every value, values fastest, rendered by type. |
| TestGen.PairTexts | usr/src/tools/stf/include/testgen.kshlib:354-383 | The text of each name and value by its type: quoted value, escaped name without a value, or plain; can_be_null gives an empty value, can_be_absent or an empty name no text. |
| TestGen.ShownParts | usr/src/tools/stf/include/testgen.kshlib:413-416 | Exactly the parts can_be_null and can_be_absent of a caseline are blanked. |
| WordList.FindWord | usr/src/tools/stf/include/stf_common.kshlib:1989-1993 | A separated word occurs first or last in the string exactly where it occurs first or last in the list. |
| WordList.Cuts | usr/src/tools/stf/include/stf_common.kshlib:1989-1993 | The prefix and suffix expansions cut the string where the list is cut at that word, and leave it whole for an absent word. |
| WordList.FindMatches | usr/src/tools/stf/include/stf_common.kshlib:1989-1993 | A place found is an occurrence. |
| WordList.FindMeans | usr/src/tools/stf/include/stf_common.kshlib:1989-1993 | No occurrence lies before the first or after the last one found. |
| WordList.WordsOfJoin | usr/src/tools/stf/include/stf_common.kshlib:1980-1981 | Reading a joined value back gives the list, so a value stands for one list only. |
| WordList.AddStepRefines | usr/src/tools/stf/include/stf_common.kshlib:1985-2009 | An unforced round on the string is the list operation: add when missing, else nothing, with duplicates or not. |
| WordList.AddRefines | usr/src/tools/stf/include/stf_common.kshlib:1950-2015 | A whole wordAdd_ or wordInsert_ call on the variable is the list operation on its words, up to the first empty argument. |
| WordList.AddsExactlyTheMissing | usr/src/tools/stf/include/stf_common.kshlib:1985-2009 | A call adds exactly the missing words, each at its first mention, behind or (reversed) in front of the unchanged list. |
| WordList.MissingMeans | usr/src/tools/stf/include/stf_common.kshlib:1985-2009 | The missing words of a call are pairwise different, and are exactly the given words not in the list. |
| WordList.AddTwiceIsOnce | usr/src/tools/stf/include/stf_common.kshlib:1985-2009 | Adding or inserting the same words again changes nothing. |
| WordList.AddedUnique | usr/src/tools/stf/include/stf_common.kshlib:1985-2009 | A list without duplicates stays so. |
| WordList.ForcedOneWord | usr/src/tools/stf/include/stf_common.kshlib:2001-2007 | One forced word per call is moved to its end of a list without duplicates, or added there. |
| WordList.WithoutOthers | usr/src/tools/stf/include/stf_common.kshlib:2001-2007 | Taking a word out for its move keeps every other word. |
| WordList.ForcedTwoGlue | usr/src/tools/stf/include/stf_common.kshlib:2001-2007 | The exact result when the first of two forced words has to move: both are glued into one word. |
| WordList.ForcedTwoExactly | usr/src/tools/stf/include/stf_common.kshlib:2001-2007 | A forced call with two words does what it promises exactly when the first is not in the list or is the whole list. |
| WordList.ForcedExactly | usr/src/tools/stf/include/stf_common.kshlib:2145-2153 | A forced call of any length and all its shorter forms do what they promise exactly when no word but the last has to be moved from a longer list. |
| WordList.ForcedTwoLosesASeparator | usr/src/tools/stf/include/stf_common.kshlib:2001-2007 | Forcing a and c into "a:b" leaves "b:ac", for any three different words. |
| WordList.EditPresent | usr/src/tools/stf/include/stf_common.kshlib:2001-2007 | A forced round on any list, duplicates included, drops all between the word's first and last occurrence. |
| WordList.DeleteRefines | usr/src/tools/stf/include/stf_common.kshlib:2196-2237 | A delete call removes from the list exactly each word's first (LR) or last (RL) occurrence, duplicates or not, also when the list runs empty. |
| WordList.DeletedMeans | usr/src/tools/stf/include/stf_common.kshlib:2211-2232 | The deleted occurrence is the first or the last one, and all other words keep their order. |
| WordList.ReplaceExactly | usr/src/tools/stf/include/stf_common.kshlib:2297-2345 | A replace call does what it promises, in either direction and with duplicates, exactly when the variable is not empty or no pair is given. |
| WordList.ReplaceInEmpty | usr/src/tools/stf/include/stf_common.kshlib:2313-2340 | On an empty variable the first pair's new word is put in though its old word is not there. |
| WordList.ListVariable.AddWords | usr/src/tools/stf/include/stf_common.kshlib:1950-2015 | The loop of wordAdd__ rewrites the variable to what the rounds specify. |
| WordList.ListVariable.InsertWords | usr/src/tools/stf/include/stf_common.kshlib:2095-2159 | The loop of wordInsert__ rewrites the variable to what the rounds specify. |
| WordList.ListVariable.DeleteWords | usr/src/tools/stf/include/stf_common.kshlib:2176-2243 | The loop of wordDelete__ rewrites the variable to what the rounds specify. |
| WordList.ListVariable.ReplaceWords | usr/src/tools/stf/include/stf_common.kshlib:2283-2350 | The loop of wordReplace__ rewrites the variable to what the rounds specify. |
| WordList.ListVariable.WordAdd | usr/src/tools/stf/include/stf_common.kshlib:1881-1905 | The variable ends as the old words followed by exactly the missing ones. |
| WordList.ListVariable.WordInsert | usr/src/tools/stf/include/stf_common.kshlib:2029-2052 | The variable ends as the missing words, last mentioned first, before the old ones. |
| WordList.ListVariable.ForceWordAdd | usr/src/tools/stf/include/stf_common.kshlib:1918-1936 | With one word, the variable ends with it at the end and every other word in place. |
| WordList.ListVariable.ForceWordInsert | usr/src/tools/stf/include/stf_common.kshlib:2065-2085 | With one word, the variable ends with it in front and every other word in place. |
| WordList.ListVariable.WordDelete | usr/src/tools/stf/include/stf_common.kshlib:2245-2263 | The variable ends as the list without the named occurrences. |
| WordList.ListVariable.WordReplace | usr/src/tools/stf/include/stf_common.kshlib:2353-2370 | The variable ends as the list with the named occurrences replaced, exactly when it was not empty or no pair is given. |
| Timeout.ParseTimeout | usr/src/tools/stf/bin/stf_timeout.c:325-357 | The parser's duration, verdict and unread rest are those of the three stages. |
| Timeout.ParseValue | usr/src/tools/stf/bin/stf_timeout.c:364-402 | A digit text is read as its number with the unit of the letter behind it, up to behind the letter, or as a bare number at the end; a wrong character leaves units and position as they are. |
| Timeout.PrintedLimitsParse | usr/src/tools/stf/bin/stf_timeout.c:325-402 | Every in-order choice of hour, minute and second fields with an optional bare number parses to its sum, wholly consumed. |
| Timeout.TwoFieldsAccepted | usr/src/tools/stf/bin/stf_timeout.c:334-356 | Two fields are accepted exactly when their units come in order. |
| Timeout.AcceptedExactly | usr/src/tools/stf/bin/stf_timeout.c:325-357 | Any limit is accepted exactly when what follows its first value continues it in the order of units, up to a last bare number; without a unit letter there, the unset units variable decides. |
| Timeout.WrongCharacterAccepted | usr/src/tools/stf/bin/stf_timeout.c:325-399 | A limit with a wrong character after its first value, or without a first number, is accepted exactly when the unset units variable held "none", or held a unit whose stage accepts the text from that character on. |
| Timeout.UnreadableRest | usr/src/tools/stf/bin/stf_timeout.c:325-399 | If no number can be read from the wrong character on, only "none" accepts the limit. |
| Timeout.NumberInRest | usr/src/tools/stf/bin/stf_timeout.c:325-399 | If all from the wrong character on is a number, every value of the unset variable accepts the limit. |
| Timeout.FiveMinusThree | usr/src/tools/stf/bin/stf_timeout.c:325-399 | "5-3" is accepted for each value of the unset variable, with four different durations. |
| Timeout.ReadsDecimal | usr/src/tools/stf/bin/stf_timeout.c:373 | Decimal text is read back to its number, whatever follows. |
| Timeout.StrtolSkips | usr/src/tools/stf/bin/stf_timeout.c:373 | Blanks before a number are skipped, and a plus or minus sign is read. |
| MkTree.Builder.Make | usr/src/suites/fs/zfs/bin/mktree.c:94-132 | The recursion creates exactly the specified directories and files, in order; below the last level nothing. |
| MkTree.TreeTotals | usr/src/suites/fs/zfs/bin/mktree.c:94-132 | ndir + ... + ndir^nlevel directories are created, and nfile files in the base and in each of them. |
| MkTree.TreeChildren | usr/src/suites/fs/zfs/bin/mktree.c:94-132 | The base and every created directory gets exactly nfile files; each above the last level gets exactly ndir directories, those of the last level none. |
| MkTree.TreeDistinct | usr/src/suites/fs/zfs/bin/mktree.c:94-132 | All created paths are distinct and strictly below the base. |
| MkTree.PowerSumFolds | usr/src/suites/fs/zfs/bin/mktree.c:94-132 | The sum of powers, counted from the root or from the leaves. |
| MkTree.PathTextInjective | usr/src/suites/fs/zfs/bin/mktree.c:134-144 | Different paths have different texts. |
| MkTree.TextInjective | usr/src/suites/fs/zfs/bin/mktree.c:134-144 | A name's kind, level, directory and file number can be read back from its text. |
| MkTree.TextOfName | usr/src/suites/fs/zfs/bin/mktree.c:134-144 | The text of a name in full, for a directory and a file. |
| MkTree.TreeNamed | usr/src/suites/fs/zfs/bin/mktree.c:94-132 | Every created name says where it stands: a directory its level and its own number, a file the level, the directory number and its own. |

## Left out

- HashTable.HashTable.InsertKey: locks and allocation succeed here; failing ones are in `InsertLocks`. The verdict of the load-threshold function is a parameter.
- HashTable.HashTable.Resize: the old slabs are dropped rather than freed, and overflow of twice the size is not modelled; the lock downgrade around the swap is not modelled.
- HashTable.HashTable.LocateKey: a stored null datum is told apart from not-found, which the returned pointer of the source does not do.
- LockCoupling.StepKeepsInv: only locate and delete calls interleave; insertion walks chains without entry locks and resize swaps tables under a read lock, so these are atomic elsewhere in the model. Releasing a lock always succeeds.
- InsertLocks.Insertion.InsertKey: releasing a lock always succeeds, and the implicit resize after the insertion, which takes its own locks, is not part of it.
- Sweep and destruction of tables, the lifecycle of their locks, and the hash-table statistics, which delete does not keep up.
- Memory exhaustion beyond one failing slab, and errno values.
- Custom hash and compare functions: keys are byte sequences compared for equality.
- SyncServer.SyncServer.HandleConnect: names ending in ",wait", values with "=" and numeric labels that Tcl compares as numbers are not modelled; a request is already parsed.
- Barrier.Lockstep: a part waiting for a variable counts as running its script; sockets and lost connections before the server ends are not modelled.
- The launcher's result precedence (`final_result`), journal writing and the variable file client.
- JournalPipe.JournalContext.WritePipe: poll, read and failing writes are not modelled; written text is collected in one sequence.
- Probe.KeywordLocate: strings are their ranks in the order of strcasecmp.
- TestGen.Generator.ProcessParts: the shell's eval of value lists and the checker's side effects on TEST_NAME are not modelled; value lists are fixed and the checker is a function of the line.
- WordList.ListVariable.AddWords: separators are single characters without a meaning in shell patterns.
- WordList.ForcedExactly: states the condition for a call together with all its shorter forms; for one call alone the condition is proved exact for two words, since a longer call can drop its glued words again.
- Timeout.ParseTimeout: numbers are unbounded, so the out-of-range message is not modelled.
- MkTree.Builder.Make: failing system calls and the truncation of paths at MAXPATHLEN are not modelled.
- Command-line handling, printf formatting, locale, the Perl filters, configure scripts and the remaining ZFS stress programs: text plumbing and system calls.
