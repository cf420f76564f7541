# Verification of selected components

This Dafny project models fourteen components of the node and proves what they promise. Each module follows one
source file, and keeps its form: objects whose methods update them are classes, loops are loops proved against a
specification function or predicate, and the lemmas are about those.

- **Address manager** (`AddrTables`, `AddrMoves`, `AddrMan`, `AddrCheck`, `AddrDisk`): five redundant tables and two
  counters. The invariant is the whole of the consistency check. Every operation keeps it, also through the intermediate
  states where it is broken on purpose, and saving and loading preserves the contents up to ids, any number of times in
  a run. `AddrEvict` and `AddrVictims` are about which entry gives way, `AddrSpread` about how far a range spreads,
  `AddrTimes` about what times and attempts mean for an entry, `AddrSound` about what passing the check means, and
  `AddrHistory` about where entries come from in whole runs.
- **Check queue** (`CheckQueue`, `CheckQueueProtocol`, `CheckQueueSafety`, `CheckQueueLiveness`): the critical
  sections as methods, and the protocol as atomic steps of any number of workers and one master. Safety holds for
  every interleaving, termination of `Wait` under fairness.
- **Chain structures** (`Merkle`, `Locator`, `MedianTime`): flat Merkle tree against the recursive one, block locator
  between two nodes, median time along a chain.
- **Block assembler** (`BlockAssembler`, `BlockSchedule`, `Miner`): the priority queue with orphans, budgets and one
  change of order, as a run of turns each of which takes an unbeaten contender.
- **Stake modifier** (`StakeModifier`): 64 rounds of selection and the modifier of a kernel.
- **Synchronized checkpoints** (`Checkpoints`): a growing block tree and all checkpoints ever held.
- **Codecs and arithmetic** (`Digits`, `Bignum`, `Base58`, `Compact`, `Pbkdf2`): positional notation for any base, and
  the formats built on it.
- **Small structures** (`LimitedMap`, `LockedPages`, `Bloom`); `Ascending` is the order in which a `std::set` of
  integers is walked, `Multisets` what taking an element out of a sequence does to its multiset, `Bits` and
  `PowersOfTwo` are about the bits of words.

## Conventions

Hashes are uninterpreted; injectivity is a hypothesis only where a lemma says so. A big number is a mathematical
integer and its MPI form the bytes after the four length bytes. The numbers that `GetRandInt` draws
are any sequence, and what an operation does is stated in terms of those it draws; a pop from a heap is any element that
no other beats. What the database, the disk, signature checks, script evaluation and chain
reorganization answer is a parameter. Ghost fields and ghost results record what the proofs talk about (checkpoints
ever held, blocks of memory in use, the turns of the block assembler) and influence nothing.

Where code and comments differ, the code is modelled:

- `src/limitedmap.h:11` promises the N elements with the highest values. One fewer is kept, a new key is never the one
  evicted, and a map that `max_size` has left at its limit grows without bound (`HighestKept`,
  `RunWithinLimit`, `GrowsWithoutBound`).
- `src/addrman.cpp:129-130` looks for the least recently tried of four entries, but returns the draw of its place, where
  another entry may stand by the end. What is returned is right for all draws exactly if all entries of the bucket are
  as recent as each other; a bucket of two is also safe with its less recent entry first (`OldestReturned`,
  `OldestMissed`).
- `src/kernel.cpp:89-92` says that proof of stake is always favoured. A work block loses to every stake block exactly if
  its hash is at least 2^224; a smaller one can win (`StakeFavoured`).
- `src/checkqueue.h:100` bounds a batch by `nBatchSize`; a batch keeps to it exactly if it is at least 1, as a batch
  always has a check (`BatchSizeBounds`).
- `PBKDF2_SHA256` with an iteration count of 0 gives the result for 1.

## Model

| member | source | states |
|---|---|---|
| AddrTables.Net.TriedBucket | src/addrman.cpp:9-21 | the tried bucket of an address is one of 64 |
| AddrTables.Net.NewBucket | src/addrman.cpp:23-35 | the new bucket of an address and a source is one of 256 |
| AddrManager.AddrMan.constructor | src/addrman.h:382-390 | an empty manager is consistent |
| AddrManager.AddrMan.Find | src/addrman.cpp:80-91 | an address is found exactly when the index has it, under its own id |
| AddrManager.AddrMan.Create | src/addrman.cpp:93-103 | the new entry gets the next id, both indexes and the last place of vRandom; nothing else changes |
| AddrManager.AddrMan.SwapRandom | src/addrman.cpp:105-123 | both places and both back pointers are exchanged; the assertions hold |
| AddrTables.SwapValid | src/addrman.cpp:105-123 | a swap keeps the whole invariant |
| AddrManager.AddrMan.SelectTried | src/addrman.cpp:125-147 | the bucket is permuted exactly as the random numbers drawn say; among the inspected front places the ghost place holds the least recent success, and its draw is returned |
| AddrManager.AddrMan.DrawPlace | src/addrman.cpp:130-137 | one more place of the bucket is swapped with the drawn one |
| AddrVictims.TriedVictim | src/addrman.cpp:125-147 | Good_ demotes a tried entry only from a full bucket, and it is the one at the draw of the place with the least recent success after the four draws that follow the first |
| AddrEvict.SomeDrawsMiss | src/addrman.cpp:125-147 | in any bucket with entries of different age some draws have the position of a more recent entry returned |
| AddrEvict.OldestReturned | src/addrman.cpp:125-147 | for every bucket: all draws return the position of an entry no more recent than those inspected exactly if all entries are as recent as each other (of two entries, if the first is not the more recent); the comment in the code promises it always |
| AddrEvict.OldestMissed | src/addrman.cpp:125-147 | consistent tables with a full bucket, and draws that return the position of its most recent entry |
| AddrManager.AddrMan.FirstTerrible | src/addrman.cpp:155-173 | finds the least id whose entry is terrible, if there is one |
| AddrManager.AddrMan.OldestOf | src/addrman.cpp:175-188 | finds the least recently seen of the entries at four given places, the first of several |
| AddrManager.AddrMan.DeleteEntry | src/addrman.cpp:161-169 | an entry leaves vRandom by way of its last place, and both indexes |
| AddrManager.AddrMan.TakeOut | src/addrman.cpp:188-200 | one reference is dropped, the entry being deleted with the last one; the invariant is kept although the caller has already raised another count |
| AddrManager.AddrMan.ShrinkNew | src/addrman.cpp:149-201 | one entry leaves the bucket: the first terrible one in id order, or else the oldest at the places of the next four random numbers, the first of several; the invariant is kept in the middle of Add_ |
| AddrVictims.TerribleVictim | src/addrman.cpp:155-173 | an entry that Add_ takes out of a new bucket with terrible ones is terrible, and the first such; the bucket was full |
| AddrVictims.OldestVictim | src/addrman.cpp:175-198 | without terrible ones it is the least recently seen of those at four drawn places of the full bucket in id order |
| AddrTables.ForgetValid | src/addrman.cpp:161-169 | deleting an entry in no bucket keeps the invariant |
| AddrTables.DropRefValid | src/addrman.cpp:188-200 | dropping one reference keeps the invariant, with or without the deletion |
| AddrTables.FreshValid | src/addrman.cpp:93-103 | a created entry fits the invariant with its count raised ahead of its bucket |
| AddrTables.RaiseValid | src/addrman.cpp:352-355 | raising a count below four ahead of the bucket fits the invariant |
| AddrTables.EnterValid | src/addrman.cpp:360-367 | entering the bucket restores the full invariant |
| AddrManager.AddrMan.LeaveNewBuckets | src/addrman.cpp:207-215 | the entry is in no new bucket any more and its count has come down to exactly zero, as asserted |
| AddrManager.AddrMan.ReplaceTried | src/addrman.cpp:228-258 | in a full tried bucket the entry at the position SelectTried returned becomes a new entry with one reference, in its own new bucket if that has room and else in the bucket the promoted entry came from |
| AddrManager.AddrMan.MakeTried | src/addrman.cpp:203-259 | the complete effect of a promotion on all tables, a victim being the one SelectTried picks; the invariant and every assertion hold |
| AddrMoves.ExchangeSizes | src/addrman.cpp:239-251 | the evicted entry always finds room, so no bucket outgrows its size |
| AddrMoves.MovedValid | src/addrman.cpp:203-259 | a promotion keeps the invariant, with and without eviction |
| AddrMoves.MovedFacts | src/addrman.cpp:203-259 | a promotion loses nobody: all other entries are unchanged but for at most one from the same full tried bucket, now a new entry with one reference |
| AddrVictims.VictimHome | src/addrman.cpp:228-308 | the demoted entry goes to the new bucket of its own source, or, if that is full, to the first bucket that held the promoted one, counting from the drawn bucket |
| AddrVictims.OneGone | src/addrman.cpp:312-368 | adding an address loses at most one entry, a new one with one reference out of the full bucket |
| AddrMoves.MovedHome | src/addrman.cpp:228-258 | a full tried bucket gives up the entry at the draw of the least recent place; it goes to the new bucket of its own source, or to that of the promoted entry if the former is full |
| AddrManager.AddrMan.BucketOf | src/addrman.cpp:287-306 | a new entry is found in the first new bucket that holds it, from the drawn one on and around the end, so the exit at line 304 is never taken |
| AddrManager.AddrMan.Good_ | src/addrman.cpp:261-310 | known entries only: times and attempts are updated and a new entry is promoted, evicting the one SelectTried picks with the random numbers drawn; the invariant is kept |
| AddrManager.AddrMan.Hear | src/addrman.cpp:321-349 | an entry heard of again: time and services move forward only, and one more reference is asked for exactly where one is allowed and the next random number, one of 2^nRefCount, is 0 |
| AddrVictims.KnownEnters | src/addrman.cpp:340-367 | a known entry is in the bucket afterwards exactly if it was, or if it may grow and its random number is 0 |
| AddrManager.AddrMan.Register | src/addrman.cpp:350-356 | an unknown address becomes an entry with its count raised, in no bucket yet |
| AddrManager.AddrMan.Place | src/addrman.cpp:358-367 | the entry enters its bucket unless it is there; a full bucket first gives up the entry that ShrinkNew picks at that time |
| AddrManager.AddrMan.Add_ | src/addrman.cpp:312-368 | the complete effect of an announcement, with the random numbers drawn and the victim that ShrinkNew picks with them at that time; the result says whether the address was unknown; the invariant is kept |
| AddrMoves.SettledValid | src/addrman.cpp:358-367 | shrinking and entering together restore the invariant that the raised count had broken |
| AddrMoves.AddedFacts | src/addrman.cpp:312-368 | a routable address is known afterwards, and at most one other entry is gone, a new one with a single reference from the full bucket; all tried entries stay |
| AddrMoves.AddedLands | src/addrman.cpp:350-367 | an unknown routable address gets the next id, a clean entry and a place in exactly one new bucket, that of its range and its source's |
| AddrManager.AddrMan.Attempt_ | src/addrman.cpp:370-387 | a known entry gets the time and one more attempt; an address not known before the call changes nothing |
| AddrManager.AddrMan.Connected_ | src/addrman.cpp:509-527 | a known entry gets the time if the stored one is over twenty minutes older; an address not known before the call changes nothing |
| AddrManager.AddrMan.GetAddr_ | src/addrman.cpp:493-507 | 23 per cent of the entries, 2500 at most, all with different addresses, at the front of vRandom as the random numbers drawn permute it; nothing else changes |
| AddrManager.AddrMan.DrawFront | src/addrman.cpp:500-503 | one more place of vRandom is swapped with the drawn one; the invariant is kept |
| AddrManager.AddrMan.GetRandInt | src/util.cpp:184-187 | the next random number below the bound |
| AddrMoves.DistinctPeers | src/addrman.cpp:493-507 | different places of vRandom hold different addresses |
| AddrTimes.TerribleInFigures | src/addrman.cpp:37-56 | in figures, which entries may be dropped: not one tried within a minute; else one ahead of the clock, unseen for a month, or failing too often |
| AddrTimes.TerribleStays | src/addrman.cpp:37-56 | an entry nobody hears of stays terrible |
| AddrTimes.TriedIsKept | src/addrman.cpp:370-387 | an entry just tried is kept for a minute |
| AddrTimes.AttemptsCount | src/addrman.cpp:370-387 | the third attempt without any success makes an entry terrible, and no earlier one |
| AddrTimes.SuccessForgives | src/addrman.cpp:261-280 | after a success an entry is kept for thirty days if nobody tries it |
| AddrTimes.HeardMovesOn | src/addrman.cpp:323-332 | hearing of an entry only adds services and only moves its time forward, and when it does |
| AddrTimes.NewInfoClean | src/addrman.cpp:350-353 | a new entry has a clean record and the announced time less the penalty |
| AddrTimes.GrowsWithNews | src/addrman.cpp:334-344 | when one more reference may be asked for |
| AddrTimes.ReachedMovesOn | src/addrman.cpp:509-527 | a connection moves a time more than twenty minutes old |
| AddrCheck.CheckEntries | src/addrman.cpp:441-463 | the first loop passes exactly when every entry does, and sorts the ids |
| AddrCheck.CheckTried | src/addrman.cpp:465-473 | the second loop passes exactly when the tried buckets list the tried ids once each |
| AddrCheck.CheckNew | src/addrman.cpp:475-484 | the third loop passes exactly when every id is in as many new buckets as its count says |
| AddrManager.AddrMan.Check_ | src/addrman.cpp:434-490 | returns 0 exactly when the tables pass, and changes nothing in consistent tables although reading a map can insert |
| AddrCheck.ValidChecked | src/addrman.cpp:434-490 | the invariant implies that the check passes |
| AddrSound.CheckedExact | src/addrman.cpp:434-490 | tables pass the check exactly if they satisfy the invariant and have sensible times, up to what the check does not look at: foreign and missing index entries, the id counter, tried buckets and sizes |
| AddrManager.Run | src/addrman.cpp:261-387 | every run from the empty manager: its history of tables, one operation of the source between each two, all of them consistent, and passing the check as long as times were sensible |
| AddrManager.Perform | src/addrman.cpp:261-387 | what each operation does to the tables, the invariant and sensible times kept |
| AddrSpread.SourceSpread | src/addrman.h:106-107 | the addresses heard from one group of sources reach 32 new buckets at most |
| AddrSpread.SameRanges | src/addrman.cpp:23-35 | the new bucket depends on the ranges of address and source only |
| AddrSpread.GroupSpread | src/addrman.h:112-114 | the addresses of one group reach 4 tried buckets at most |
| AddrSpread.SpreadAttained | src/addrman.cpp:9-35 | the bounds of 32 and 4 buckets are attained: with a transparent hash in place of the real one, the very bucket for every address, source, port and key |
| AddrSpread.GroupShare | src/addrman.h:101-101 | in consistent tables one group never holds more than 4 * 64 tried places |
| AddrSpread.TablesBounded | src/addrman.h:99-99 | consistent tables hold at most 4096 tried and 16384 new entries |
| AddrDisk.WriteNews | src/addrman.h:283-295 | the new entries are written in id order and numbered by their place |
| AddrDisk.WriteTrieds | src/addrman.h:296-305 | the tried entries are written in id order |
| AddrDisk.Write | src/addrman.h:279-317 | the stream holds exactly what a consistent manager holds |
| AddrDisk.RepresentsSound | src/addrman.h:279-317 | what is written from a consistent manager can be read back |
| AddrDisk.ReadNews | src/addrman.h:326-340 | the new entries are loaded under consecutive ids into all indexes |
| AddrDisk.ReadTrieds | src/addrman.h:341-358 | each tried entry is loaded into its bucket or counted as lost; none of a sound stream is lost |
| AddrDisk.ReadTried | src/addrman.h:343-357 | one entry is lost exactly if its bucket is full |
| AddrDisk.ReadBuckets | src/addrman.h:360-378 | the new buckets are filled and counted, no entry reaching its limit early |
| AddrDisk.Read | src/addrman.h:318-379 | any stream: false exactly if it is too short, no tried bucket outgrows its size, what is lost is counted, no entry gets more than four references; a sound stream gives a consistent manager that it represents, with nothing lost |
| AddrDisk.ReadValid | src/addrman.h:318-379 | a completely loaded sound stream satisfies the whole invariant |
| AddrDisk.SameStream | src/addrman.h:248-276 | two consistent managers that one stream represents agree on everything persisted, whatever their ids |
| AddrDisk.RoundTrip | src/addrman.h:278-379 | writing and reading back loses nothing and gives a consistent manager with the same entries, split, new buckets and tried buckets; with sensible times it passes the check as well |
| AddrDisk.TimesSurvive | src/addrman.h:326-358 | times sensible before are sensible after loading, though the time of the last try is not stored |
| AddrDisk.RestartKeeps | src/addrman.h:259-380 | a restart in a run keeps every address, all that is stored about it, its table and its buckets, and sets the last try to 0 |
| AddrDisk.ReloadChecked | src/addrman.h:278-379 | what is reloaded from checked tables passes the consistency check |
| AddrDisk.RunWithRestarts | src/addrman.h:278-379 | every run with any number of restarts: its history of tables, one operation or one saving and loading between each two, all of them consistent, and passing the check as long as times were sensible |
| AddrHistory.ListedWasAnnounced | src/addrman.cpp:312-368 | in every run with restarts, whatever service is listed was announced before and is routable |
| AddrHistory.TriedWasGood | src/addrman.cpp:261-310 | in every run with restarts, whatever service is in the tried table was marked as good before |
| AddrHistory.PraisedIsTried | src/addrman.cpp:261-310 | a listed service that is marked as good is in the tried table then |
| AddrHistory.FollowedFrom | src/addrman.cpp:261-387 | one operation or restart lists and tries no service but those listed and tried before and the one it is about |
| CheckQueue.BatchSizeBounds | src/checkqueue.h:96-101 | a batch has between 1 and queue.size() checks, and keeps to nBatchSize exactly if that is at least 1 |
| CheckQueue.BatchIsShare | src/checkqueue.h:96-101 | a batch of more than one check is no more than the share of each thread, and the largest such within the limit |
| CheckQueue.BatchTaken | src/checkqueue.h:101-111 | the batch taken is the end of the queue and starts with the answer so far |
| CheckQueue.CCheckQueue.TakeBatch | src/checkqueue.h:102-108 | the batch is the end of the queue, last element first |
| CheckQueue.CCheckQueue.Section | src/checkqueue.h:82-111 | from the test of the queue on: leave, block or take a batch, as the function Grab says |
| CheckQueue.CCheckQueue.EnterSection | src/checkqueue.h:68-111 | clean-up of the last round, waking the master with the last piece of work, then Grab |
| CheckQueue.CCheckQueue.ResumeSection | src/checkqueue.h:92-111 | the critical section after a wait |
| CheckQueue.CCheckQueue.Add | src/checkqueue.h:136-147 | the checks are queued and counted; one or all workers are notified |
| CheckQueue.CCheckQueue.Execute | src/checkqueue.h:112-116 | the answer of a batch is the conjunction; no check runs after a failure, in this batch or before it |
| CheckQueueProtocol.InitInv | src/checkqueue.h:121-123 | the invariant holds at the start for any number of workers |
| CheckQueueProtocol.Notified | src/checkqueue.h:143-146 | one check wakes one waiting worker, more wake all, and Add never wakes the master |
| CheckQueueSafety.AddStep | src/checkqueue.h:136-147 | adding work keeps the invariant |
| CheckQueueSafety.ExecStep | src/checkqueue.h:112-116 | running or skipping one check keeps the invariant |
| CheckQueueSafety.CleanUpStep | src/checkqueue.h:69-80 | the first half of a critical section keeps counts, conservation and verdict, and wakes the master in time |
| CheckQueueSafety.TakeStep | src/checkqueue.h:96-111 | taking a batch moves checks, losing and doubling none |
| CheckQueueSafety.LeaveStep | src/checkqueue.h:82-94 | waiting, or leaving as a worker, keeps the invariant |
| CheckQueueSafety.ReturnStep | src/checkqueue.h:83-91 | when the master leaves, everything added has been reported and the verdict is exact |
| CheckQueueSafety.LockStep | src/checkqueue.h:68-111 | a whole critical section keeps the invariant |
| CheckQueueSafety.StepInv | src/checkqueue.h:61-147 | every step of any thread keeps the invariant |
| CheckQueueSafety.RunInv | src/checkqueue.h:61-147 | so does every run |
| CheckQueueSafety.WaitSafe | src/checkqueue.h:130-133 | whatever the interleaving, every finished Wait returned the conjunction of exactly the checks added for it, each reported once |
| CheckQueueSafety.UnusedBetweenRounds | src/checkqueue.h:164-171 | between rounds the three assertions of CCheckQueueControl hold |
| CheckQueueLiveness.WaitingMasterHasHelp | src/checkqueue.h:82-95 | while the master waits some worker holds an unreported batch: no wake-up is lost |
| CheckQueueLiveness.HelpfulCanStep | src/checkqueue.h:61-118 | the thread that is to make progress is never blocked: no deadlock |
| CheckQueueLiveness.HelpfulStep | src/checkqueue.h:61-118 | its step reduces the work ahead |
| CheckQueueLiveness.OtherStep | src/checkqueue.h:61-118 | no step of another thread undoes that |
| CheckQueueLiveness.WaitReturns | src/checkqueue.h:130-133 | in every fair run each Wait returns |
| Merkle.CBlock.BuildMerkleTree | src/main.h:963-980 | the flat array is the levels of the recursive tree in a row, and its last element the root |
| Merkle.CBlock.GetMerkleBranch | src/main.h:982-996 | the siblings of the recursive tree on the way from a leaf |
| Merkle.CBlock.CheckMerkleBranch | src/main.h:998-1011 | folds a branch from a hash; -1 gives 0 |
| Merkle.BranchLeadsToRoot | src/main.h:982-1011 | the branch of every leaf checks to the root |
| Merkle.RootForcesLeaf | src/main.h:998-1011 | with an injective pair hash, a branch of the tree's height that checks to the root starts at that leaf and is its branch |
| Merkle.RootFixesLeaves | src/main.h:963-980 | with an injective pair hash, blocks with as many transactions have the same root exactly if their transactions are the same |
| Merkle.PaddedRoot | src/main.h:969-974 | filling every odd level up with its last node does not change the root |
| Merkle.RootFixesPadded | src/main.h:963-980 | trees of one height have the same root exactly if their leaves are the same after that filling up |
| Merkle.RootFixesLevel | src/main.h:963-980 | for trees of any two heights, the roots are the same exactly if the padded leaves of the lower tree are the padded nodes of the higher one at that height |
| Merkle.RepeatedLastLeaf | src/main.h:969-974 | so the root does not fix the leaves: repeating the last of an odd number changes nothing |
| Merkle.RootOfOneLeaf | src/main.h:963-980 | nor does it across heights: the hash of two leaves may stand as a leaf itself |
| Merkle.FlatEndsInRoot | src/main.h:963-980 | the flat array of a non-empty block ends in the recursive root |
| Merkle.BranchChecks | src/main.h:963-1011 | the three methods together, for any block and any leaf |
| Locator.CBlockLocator.Set | src/main.h:1487-1502 | records the blocks at depths 0 to 11 and then 9 + 2^(j-10), and the genesis block |
| Locator.CBlockLocator.GetDistanceBack | src/main.h:1504-1523 | returns the scheduled depth of the first entry in the main chain, although it doubles on another test |
| Locator.CBlockLocator.GetBlockIndex | src/main.h:1525-1539 | returns the first entry in the main chain, or the genesis block |
| Locator.DistanceIsDepth | src/main.h:1487-1523 | the depth retraced for an entry is the depth it was recorded at, the last one standing for beyond the chain |
| Locator.ForkFound | src/main.h:1435-1442 | a node that forks off d blocks below the tip finds a common block between depths d and 2 d |
| Locator.RecordedSize | src/main.h:1487-1502 | a locator has exactly 12 + log2(height - 9) entries from height 11, and one for every block and the genesis block below |
| Locator.Synchronize | src/main.h:1487-1539 | sender and receiver together: a common block at most twice as deep as the fork, at the distance told |
| MedianTime.GetMedianTimePast | src/main.h:1254-1268 | the median of the last eleven block times, or of all there are, stated by counting |
| MedianTime.LastTimes | src/main.h:1258-1264 | the array is filled from its end with the times of the window |
| MedianTime.MiddleIsMedian | src/main.h:1266-1267 | the middle of the sorted window is the median in that sense |
| MedianTime.WindowNext | src/main.h:1262-1264 | the window starts with the first block, grows to eleven blocks and slides from then on |
| MedianTime.MedianStep | src/main.h:1249-1268 | a block later than the median before it does not lower the median |
| MedianTime.MedianNeverDecreases | src/main.h:1249-1268 | so the median never decreases along a chain of such blocks |
| BlockAssembler.MaxSize | src/miner.cpp:147-150 | the largest size is limited to 1000 to 839000 |
| BlockAssembler.PrioritySize | src/miner.cpp:152-155 | the size for high priority is within the largest size |
| BlockAssembler.MinSize | src/miner.cpp:157-160 | so is the minimum size |
| BlockAssembler.SizesAsGiven | src/miner.cpp:147-160 | the three sizes are the options given where those are within their limits, and the nearest limit otherwise |
| BlockAssembler.ValueOutAdds | src/miner.cpp:243-243 | the value of all outputs is their sum |
| BlockAssembler.RatesOfOneInput | src/miner.cpp:228-243 | priority is value times age for each byte and the fee rate the fee for each 1000 bytes, shown for one input on the chain |
| BlockAssembler.TopExists | src/miner.cpp:264-272 | every non-empty queue has a greatest element under either order |
| BlockAssembler.ClosedPool | src/miner.cpp:200-205 | the hypothesis on the pool holds if every input is an output on the chain or of the pool |
| BlockAssembler.ReadyParents | src/miner.cpp:339-355 | a candidate is ready exactly when all its parents in the pool are included |
| Miner.BlockAssembly.ScanInputs | src/miner.cpp:192-231 | priority and value sums of a candidate; it becomes one orphan, listed under every parent once or more |
| Miner.BlockAssembly.Gather | src/miner.cpp:186-252 | one pool transaction joins the queue, the orphans, or neither |
| Miner.BlockAssembly.GatherPool | src/miner.cpp:178-252 | candidates without pool parents are queued once each, all others wait for exactly their parents |
| Miner.BlockAssembly.PopTop | src/miner.cpp:266-272 | takes an element no other beats under the order in force |
| Miner.BlockAssembly.TakeTop | src/miner.cpp:266-272 | the transaction taken is a contender, all its pool parents being in the block, that no other contender beats under the order in force |
| Miner.BlockAssembly.Consider | src/miner.cpp:274-321 | accepts exactly the admissible transactions and changes the order exactly when the first one ends the priority phase |
| Miner.BlockAssembly.Include | src/miner.cpp:322-331 | size, count, signature operations and fees stay those of the transactions included |
| Miner.BlockAssembly.ReleaseOne | src/miner.cpp:345-353 | an orphan is queued by the last of its parents and never twice, even if listed twice |
| Miner.BlockAssembly.Release | src/miner.cpp:339-355 | after an inclusion every orphan waits exactly for its parents outside the block |
| Miner.BlockAssembly.Step | src/miner.cpp:264-356 | one pass of the loop is one more turn as TurnOk describes it, and the order in force is again the one the turns lead to |
| Miner.BlockAssembly.StillBounded | src/miner.cpp:264-356 | no transaction leaves the queue twice, so the loop ends |
| Miner.TopUnbeaten | src/miner.cpp:264-272 | the queue holds every contender, so its top is beaten by none |
| Miner.CreateNewBlock | src/miner.cpp:178-359 | the run of the loop: each turn takes an unbeaten contender under the order in force and includes it exactly if it is admissible, until no contender is left; the block is what was included, parents first, with its exact number and sums |
| BlockSchedule.OrderChange | src/miner.cpp:294-303 | the order is by fee at first exactly without any size set aside for priority, and at each later turn exactly if it was before or the transaction taken fitted and ended the priority phase |
| BlockSchedule.OrderInFigures | src/miner.cpp:294-303 | the same in figures: the size limit, the signature operations, the times, the size set aside and the least priority |
| BlockSchedule.TurnTakesHighest | src/miner.cpp:94-107 | a turn by fee takes the highest fee rate of all contenders and a turn by priority the highest priority, the other one deciding between equals |
| BlockSchedule.IncludedExactly | src/miner.cpp:274-321 | the transaction taken is included exactly if it passes each of the tests, given in figures |
| BlockSchedule.EveryReadyHadTurn | src/miner.cpp:264-356 | every final pool transaction whose inputs are on the chain or in the block has had its turn by the end |
| BlockSchedule.TurnsFromPool | src/miner.cpp:189-190 | only final pool transactions that are neither coinbase nor coinstake have turns |
| BlockSchedule.OrderStays | src/miner.cpp:294-303 | once by fee, the order never goes back |
| BlockSchedule.PlayedNext | src/miner.cpp:264-356 | a turn that is in order continues a run that is |
| BlockSchedule.TurnsDistinct | src/miner.cpp:266-272 | no transaction has two turns |
| BlockSchedule.ParentsIncluded | src/miner.cpp:339-355 | in every run each transaction of the block comes after all its pool parents |
| BlockSchedule.AdmittedAt | src/miner.cpp:274-321 | each transaction of the block was admissible after exactly those before it |
| BlockSchedule.BlockDetermined | src/miner.cpp:178-359 | without ties in both priority and fee rate, pool and chain fix every turn and so the block, whatever the heap does |
| Miner.NoDuplicates | src/miner.cpp:264-356 | no transaction is included twice or both included and refused |
| Miner.InputsAvailable | src/miner.cpp:313-314 | every input is on the chain or an output of an earlier transaction of the block |
| Miner.LeftOutForAReason | src/miner.cpp:264-356 | a candidate left out was refused at its turn or waits for a pool parent left out |
| Miner.WithinLimits | src/miner.cpp:274-282 | a block with any transaction stays below both limits |
| Miner.SizeGrows | src/miner.cpp:322-324 | the block after any number of turns is no larger than the finished one |
| Miner.StillTooLarge | src/miner.cpp:274-277 | what was too large at its turn would not fit the finished block either |
| Miner.PaidOrBelowMinimum | src/miner.cpp:291-303 | once the priority size is reached, later transactions pay the least rate unless the block is below its minimum size |
| StakeModifier.GetLastStakeModifier | src/kernel.cpp:36-48 | finds the last generator at or below a block, if there is one |
| StakeModifier.GetStakeModifierSelectionInterval | src/kernel.cpp:50-64 | the interval is the sum of the 64 sections |
| StakeModifier.SectionLengths | src/kernel.cpp:50-55 | the sections grow from 200 to 600 seconds, each being the floor of its term |
| StakeModifier.SelectBlockFromCandidates | src/kernel.cpp:66-109 | picks the least selection hash among unselected candidates up to the stop time, or the earliest unselected one; fails exactly when none is left |
| StakeModifier.PickUnique | src/kernel.cpp:66-109 | that description fixes the pick |
| StakeModifier.PickFavours | src/kernel.cpp:66-109 | whom a round picks, in terms of the hashes: the least of one kind, stake with 32 bits dropped, work over stake only if 2^32 times smaller; the order between equals; the earliest if none is up to the stop time |
| StakeModifier.RoundFavours | src/kernel.cpp:160-179 | so in every round of a run, against every candidate not picked before |
| StakeModifier.WindowEnds | src/kernel.cpp:148-149 | the last section ends at the last multiple of the modifier interval |
| StakeModifier.ModifierBits | src/kernel.cpp:169-170 | the modifier in arithmetic: bit k is the entropy bit of the block selected in round k, and nothing is above the last |
| StakeModifier.StakeFavoured | src/kernel.cpp:89-92 | a work block loses to every stake block exactly if its hash is at least 2^224; the comment says always |
| StakeModifier.Gather | src/kernel.cpp:145-156 | collects the blocks of the selection interval below the tip |
| StakeModifier.SortedUnique | src/kernel.cpp:157-158 | only one sorted list has given candidates |
| StakeModifier.SelectBlocks | src/kernel.cpp:160-179 | min(64, n) different blocks are selected and the error exit is never taken; bit r of the result is the entropy bit of pick r and higher bits are zero |
| StakeModifier.PicksUnique | src/kernel.cpp:160-179 | candidates, start time and previous modifier fix all picks |
| StakeModifier.GatherOrderIrrelevant | src/kernel.cpp:145-179 | the modifier does not depend on the order in which candidates were gathered |
| StakeModifier.OneModifier | src/kernel.cpp:112-211 | the chain up to a block and the previous modifier fix the candidates, the picks and the next modifier |
| StakeModifier.CandidatesExactly | src/kernel.cpp:145-156 | a block is a candidate exactly if no block from it up to the last is before the selection interval |
| StakeModifier.ComputeNextStakeModifier | src/kernel.cpp:124-209 | kept within a modifier interval, generated anew in the next, error only without any generator |
| StakeModifier.GetKernelStakeModifier | src/kernel.cpp:211-243 | the modifier of the first generator late enough above the block, none if the chain ends first |
| Checkpoints.SyncCheckpoints.TraceBack | src/checkpoints.cpp:103-105 | the walk over pprev ends at the ancestor of the given height and never at null |
| Checkpoints.SyncCheckpoints.ValidateSyncCheckpoint | src/checkpoints.cpp:91-131 | true exactly for a strict descendant of the current checkpoint; only a conflicting block is remembered as invalid |
| Checkpoints.FateOfCandidate | src/checkpoints.cpp:91-190 | in every case what becomes of a candidate block: adopted, blamed or neither |
| Checkpoints.SyncCheckpoints.WriteSyncCheckpoint | src/checkpoints.cpp:133-147 | the checkpoint moves only if both database steps succeed |
| Checkpoints.SyncCheckpoints.AcceptPendingSyncCheckpoint | src/checkpoints.cpp:149-190 | result and new state in every case |
| Checkpoints.SyncCheckpoints.ProcessSyncCheckpoint | src/checkpoints.cpp:375-423 | result and new state in every case, an unknown block becoming pending |
| Checkpoints.SyncCheckpoints.CheckSync | src/checkpoints.cpp:203-228 | above the checkpoint exactly its descendants pass, at its height only itself, below only known blocks |
| Checkpoints.NewBlockPasses | src/checkpoints.cpp:203-228 | a new block passes exactly if its predecessor is the checkpoint or descends from it |
| Checkpoints.SyncCheckpoints.AcceptBlock | src/main.cpp:2160-2164 | a new block is accepted exactly if the check is not enforced or its predecessor is the checkpoint or descends from it; where enforced, the block is above the checkpoint and descends from every checkpoint ever held |
| Checkpoints.AncestorOfAncestor | src/checkpoints.cpp:114-125 | walking down in two stretches ends where one walk does |
| Checkpoints.OnePath | src/checkpoints.cpp:91-131 | two ancestors of one block lie on one path |
| Checkpoints.GrownDescends | src/main.cpp:1946-1960 | a new block changes no old descent and inherits that of its predecessor |
| Checkpoints.PathExtends | src/checkpoints.cpp:133-147 | a strict descendant of the newest checkpoint extends the path of all checkpoints held |
| Checkpoints.HeldHeightsRise | src/checkpoints.cpp:90-131 | checkpoints held have strictly increasing heights |
| Checkpoints.PassedDescendsFromAll | src/checkpoints.cpp:203-228 | a new block that passes is above the checkpoint and descends strictly from all held |
| Checkpoints.SyncCheckpoints.Perform | src/checkpoints.cpp:149-423 | one operation answers and changes the state exactly as Succeeded and Next say |
| Checkpoints.NextOk | src/checkpoints.cpp:133-147 | every step keeps all checkpoints ever held on one root path |
| Checkpoints.NothingForgotten | src/checkpoints.cpp:133-147 | in every run no checkpoint held is forgotten or reordered and no block leaves the index |
| Checkpoints.AcceptedAbove | src/checkpoints.cpp:225-226 | where the check is enforced nothing is accepted at or below the height of the checkpoint |
| Checkpoints.AcceptedDescends | src/main.cpp:2160-2164 | in every run every block accepted where the check is enforced descends, then and ever after, from all checkpoints held until it came |
| Checkpoints.SyncCheckpoints.Run | src/checkpoints.cpp:149-423 | every run has exactly the answers and the final state of its steps; all checkpoints ever held stay on one root path and none is forgotten |
| Base58.EncodeBase58 | src/base58.h:26-64 | the loops compute the change of base with one character '1' for each leading zero byte |
| Base58.DecodeBase58 | src/base58.h:74-118 | reads exactly the readable texts, as the change of base back |
| Base58.ReadNumber | src/base58.h:85-101 | the characters of the alphabet read as a number in base 58 |
| Base58.LeadingOnes | src/base58.h:110-113 | as many zero bytes come back as there are leading characters '1' |
| Base58.TrimmedVch | src/base58.h:103-108 | without its sign byte, getvch holds the digits of the number in base 256 |
| Base58.ReadableParts | src/base58.h:81-97 | a text is read exactly if it is spaces, characters of the alphabet and spaces, up to its end or a NUL |
| Base58.DecodeEncoded | src/base58.h:25-118 | decoding an encoding gives back every byte vector, leading zeros included |
| Base58.EncodeDecoded | src/base58.h:25-118 | a text over the alphabet is the encoding of what it decodes to and of nothing else |
| Base58.EncodedLength | src/base58.h:42-44 | the text never exceeds the length reserved for it |
| Base58.AlphabetExact | src/base58.h:24-24 | the alphabet is all digits and letters but 0, O, I and l |
| Base58.SpacesExact | src/base58.h:81-82 | the characters that may stand around a text |
| Base58.Examples | src/test/data/base58_encode_decode.json:3-4 | two examples of the tests |
| Base58.EncodeBase58Check | src/base58.h:131-138 | encodes the bytes with their checksum |
| Base58.DecodeBase58Check | src/base58.h:142-159 | accepts exactly texts whose last four bytes are the checksum of the rest |
| Base58.CheckInverse | src/base58.h:131-159 | the only text over the alphabet that decodes to given bytes is their encoding |
| Base58.CheckRoundTrip | src/base58.h:131-159 | every byte vector survives encoding and decoding with checksum |
| Base58.CBase58Data.SetString | src/base58.h:209-225 | takes version and data from a valid non-empty text and is reset by any other |
| Base58.CBase58Data.ToString | src/base58.h:232-237 | the text of version and data |
| Base58.SetStringToString | src/base58.h:209-237 | SetString(ToString()) restores the object |
| Digits.TranscodeInverse | src/base58.h:25-118 | changing the base of a numeral twice gives it back, for any two bases |
| Bignum.MpiRoundTrip | src/bignum.h:296-321 | the MPI format reads back every integer |
| Bignum.VchRoundTrip | src/bignum.h:296-321 | so does setvch after getvch |
| Compact.MpiSize | src/bignum.h:311-321 | the MPI of a positive number is as short as its value and a free sign bit allow |
| Compact.CompactKeepsThree | src/bignum.h:323-346 | SetCompact restores length and first three bytes and zeroes the rest |
| Compact.CompactRoundTrip | src/bignum.h:323-346 | SetCompact(GetCompact(n)) is n with all but its first three bytes zeroed |
| Compact.CompactError | src/bignum.h:323-346 | the error is below one unit of the third byte and below n / 2^15, and zero up to three bytes |
| Compact.CompactMonotone | src/bignum.h:335-346 | GetCompact keeps the order of numbers |
| Compact.CompactIdempotent | src/bignum.h:323-346 | a number read from compact form is written back unchanged |
| Compact.WriteBytes | src/bignum.h:182-207 | the bytes written for a magnitude and a sign read back as that number |
| Compact.SetInt64 | src/bignum.h:167-208 | exact for every signed 64-bit value, the minimum included |
| Compact.SetUInt64 | src/bignum.h:225-250 | exact for every unsigned 64-bit value |
| Compact.GetUInt64 | src/bignum.h:210-223 | the magnitude modulo 2^64 |
| Compact.StoreUInt64 | src/bignum.h:210-250 | what setuint64 stores getuint64 returns |
| Pbkdf2.XorInto | src/pbkdf2.cpp:46-48 | a key is XORed into the front of a pad in place |
| Pbkdf2.HmacContext.Init | src/pbkdf2.cpp:28-62 | both contexts hold the padded key, hashed if it is long |
| Pbkdf2.HmacContext.Update | src/pbkdf2.cpp:64-71 | the text so far grows by the data |
| Pbkdf2.HmacContext.Final | src/pbkdf2.cpp:73-89 | the digest is HMAC as in section 2 of RFC 2104 |
| Pbkdf2.HmacBytes | src/pbkdf2.cpp:28-62 | HMAC byte by byte, for keys of any length |
| Pbkdf2.Int32Inverse | src/pbkdf2.cpp:6-25 | be32enc gives back any four bytes from their big-endian number |
| Pbkdf2.FirstU | src/pbkdf2.cpp:116-120 | U_1 comes from a copy of the context that already holds the salt |
| Pbkdf2.NextU | src/pbkdf2.cpp:125-129 | U_j is HMAC of U_(j-1), in place |
| Pbkdf2.Block | src/pbkdf2.cpp:112-134 | one block is U_1 XOR ... XOR U_c |
| Pbkdf2.BlocksOneByOne | src/pbkdf2.cpp:112-134 | a block of one, two or three iterations written out |
| Pbkdf2.BlockAt | src/pbkdf2.cpp:136-141 | block i stands at byte 32 (i - 1) of the output |
| Pbkdf2.PBKDF2_SHA256 | src/pbkdf2.cpp:91-147 | the buffer is PBKDF2 as in section 5.2 of RFC 8018, and bytes beyond dkLen are untouched; an iteration count of 0 acts as 1 |
| LimitedMap.LimitedMap.Locate | src/limitedmap.h:54-63 | the search among equal values always finds the entry, so assert(0) is never reached |
| LimitedMap.LimitedMap.EvictFirst | src/limitedmap.h:42-43 | the first node of the index points to an entry of least value |
| LimitedMap.LimitedMap.insert | src/limitedmap.h:35-48 | a new key evicts an entry least among those there before exactly when the map reaches its limit |
| LimitedMap.LimitedMap.erase | src/limitedmap.h:49-65 | removes the key from map and index |
| LimitedMap.LimitedMap.update | src/limitedmap.h:66-85 | changes the value of a present key in map and index |
| LimitedMap.LimitedMap.max_size | src/limitedmap.h:87-97 | evicts least entries down to the new limit |
| LimitedMap.InverseInserted | src/limitedmap.h:45-45 | inserting behind equal values keeps the index the ordered inverse of the map |
| LimitedMap.InverseRemoved | src/limitedmap.h:59-60 | so does removing a node |
| LimitedMap.SameSize | src/limitedmap.h:33-34 | map and index have the same number of entries |
| LimitedMap.WithinLimit | src/limitedmap.h:35-48 | a new key leaves the map within its limit exactly if it was below it, and then one entry fewer than the limit is kept |
| LimitedMap.EvictionKeepsHighest | src/limitedmap.h:42-43 | one eviction keeps the highest values exactly if the new value is not below the evicted one |
| LimitedMap.HighestKept | src/limitedmap.h:11-11 | after a new key the map is within its limit N and holds the highest values exactly if it was below N and, where N was reached, the new value not below the least; it holds as many of them as N allows exactly if N was not reached |
| LimitedMap.LowValueKept | src/limitedmap.h:11-11 | a concrete map that does not keep the highest values |
| LimitedMap.EvictsFromNothing | src/limitedmap.h:40-44 | eviction from an empty index happens exactly in an empty map with a limit of one |
| LimitedMap.Perform | src/limitedmap.h:35-97 | what each operation does to map and limit, the index kept exact |
| LimitedMap.Run | src/limitedmap.h:35-97 | every run without a limit of one: its history of states, one operation of the source between each two, the index exact in all of them |
| LimitedMap.StaysBelow | src/limitedmap.h:35-48 | without a change of the limit a map below it stays below it in every run |
| LimitedMap.LimitApplied | src/limitedmap.h:87-98 | in any run, a new limit leaves what stays unchanged and evicts nothing greater than what stays |
| LimitedMap.GrowsWithoutBound | src/limitedmap.h:35-48 | a map at its limit or above gains an entry with every new key, in runs of any length |
| LimitedMap.RunWithinLimit | src/limitedmap.h:35-48 | a run of new keys stays within the limit exactly if the map was below it at the start |
| LockedPages.PageOf | src/allocators.h:61-62 | the base of the page of an address: a multiple of the page size at most a page below |
| Bits.SingleBit | src/allocators.h:51-51 | the assertion n & (n - 1) == 0 holds of a positive n exactly if n is a power of two |
| Bits.MaskRoundsDown | src/allocators.h:52-52 | a mask of the upper n - k of n bits rounds down to a multiple of 2^k |
| LockedPages.MaskedIsPage | src/allocators.h:51-62 | so for every page size that passes the assertion, address & ~(page_size - 1) is the base of the page |
| LockedPages.OverlapsBetween | src/allocators.h:60-64 | the pages of the loop are exactly those that overlap the block |
| LockedPages.LockedPageManager.LockRange | src/allocators.h:55-76 | every page of the block is counted once more, and a page is locked only if it was not |
| LockedPages.LockedPageManager.UnlockRange | src/allocators.h:78-99 | every page of a live block has a counter, so the assertion holds, and it is unlocked with the last count |
| LockedPages.LockedPageManager.GetLockedPageCount | src/allocators.h:101-106 | the number of locked pages |
| LockedPages.CountRemove | src/allocators.h:78-99 | a block that goes takes one from exactly the pages it overlaps |
| LockedPages.LockedWhenLive | src/allocators.h:31-41 | a page is locked exactly when a live block overlaps it, and its counter is their number |
| LockedPages.Run | src/allocators.h:55-99 | every run that unlocks only live blocks leaves live exactly the blocks locked and not unlocked again, with every counter exact for them |
| Bloom.CBloomFilter.insert | src/bloom.cpp:40-51 | sets exactly the bits of the key; no bit is lost and the key is held |
| Bloom.CBloomFilter.contains | src/bloom.cpp:67-81 | the answer is the plain bit test, with or without the shortcuts |
| Bloom.CBloomFilter.UpdateEmptyFull | src/bloom.cpp:171-182 | the flags say exactly whether all bytes are full or empty |
| Bloom.CBloomFilter.ScanOutputs | src/bloom.cpp:114-146 | every output meets the filter that those before it left and is remembered if it matches that and is to be updated; the answer is about the filter before the call |
| Bloom.CBloomFilter.IsRelevantAndUpdate | src/bloom.cpp:102-169 | answers whether the transaction was relevant before the call, although the filter grows during it |
| Bloom.WithBitCovers | src/bloom.cpp:46-48 | setting a bit sets it and keeps all others |
| Bloom.WithBitExact | src/bloom.cpp:46-48 | setting a bit changes no other one |
| Bloom.WithKeyExact | src/bloom.cpp:40-51 | inserting a key sets its bits and no others |
| Bloom.MaskIsShift | src/bloom.cpp:16-16 | bits of a byte are numbered from the least significant one |
| Bloom.UpdatesByFlag | src/bloom.cpp:131-139 | the two low bits of the flags decide which outputs are remembered |
| Bloom.WithKeyHolds | src/bloom.cpp:40-51 | an inserted key is held and no other is lost |
| Bloom.ScannedHolds | src/bloom.cpp:114-146 | an output that matches at its turn is held after the scan, even if it matches only because the filter has grown |
| Bloom.ScannedExact | src/bloom.cpp:114-146 | a scan sets no bits but those of outpoints it remembers |
| Bloom.ScannedFull | src/bloom.cpp:42-43 | a full filter stays as it is, so the shortcut of insert changes nothing |
| Bloom.RelevantInFigures | src/bloom.cpp:102-169 | what makes a transaction relevant, written out; empty elements never count |
| Bloom.FullHolds | src/bloom.cpp:69-70 | a full array holds every key |
| Bloom.EmptyHolds | src/bloom.cpp:71-72 | an empty array holds a key exactly if there is no hash function |
| Bloom.SpenderRelevant | src/bloom.cpp:148-153 | whoever spends a remembered output is relevant, then and later |
| Bloom.AfterCovers | src/bloom.cpp:40-182 | the filter only grows in a run |
| Bloom.LaterSpender | src/bloom.cpp:102-169 | in every run, a later spender of an output remembered on the way is relevant at its turn |
| Bloom.Run | src/bloom.cpp:40-182 | in every run what was inserted or held stays held, each answer is exact at its turn, and every later spender of a remembered output is reported |

## Left out

- `CAddrMan::Select_`, `GetChance`: floating point and termination with probability one; `IsTerrible` is modelled as the code has it, with the current time as a parameter.
- Loading peers saved with another number of new buckets (src/addrman.h:334-338); `Read` requires 256, as written.
- The stream of the address manager is modelled section by section, not byte by byte.
- AddrManager.AddrMan.Check_: which of the negative codes it returns is not stated.
- AddrManager.AddrMan.Add_: ids are unbounded, so the wrap-around of the 32-bit id counter is not modelled; the clock is read once for each operation.
- The clock test of `Connected_` and all times are integers; the 32-bit conversion of stored times is modelled.
- CheckQueueSafety.WaitSafe: integer widths of the counters are not modelled, fQuit does not change during a run, and a spurious wake-up is a step like any other.
- CheckQueueLiveness.WaitReturns: assumes that no thread that can go on is passed over for ever and that every check ends.
- Locator.CBlockLocator.Set: the chain is the sequence of hashes along pprev; the test-network genesis hash is a parameter.
- Miner.CreateNewBlock: requires every input of a candidate to be on the chain or in the pool, so the branch for a missing input, which frees an orphan that mapDependers still points to, is not modelled.
- Miner.CreateNewBlock: priorities and fee rates are exact rationals, and sums do not wrap; coinbase creation, the reward, the header and the debug output are not part of this model.
- StakeModifier.GetKernelStakeModifier: the block is given by its height, so the test that it is known is not modelled; kernel hash, coin-day weight and modifier checksums are left out.
- Checkpoints.SyncCheckpoints.AcceptBlock: stands for the check in src/main.cpp only; the other conditions on a block are not part of this model.
- `ResetSyncCheckpoint`, `AutoSelectSyncCheckpoint`, relaying and storing checkpoint messages, and the hard-coded checkpoints: easier, or input and output.
- Base58.DecodeBase58: characters are those of the C locale; the classes for addresses and secrets on top of CBase58Data are left out.
- Compact.SetCompact: the order of sign bit and length for negative targets is not stated beyond the MPI format; GetCompact is characterised for numbers that are not negative and whose length fits a byte, as targets are.
- Pbkdf2.PBKDF2_SHA256: clearing the stack is not modelled.
- LimitedMap.LimitedMap.insert: with a limit of one an empty map must not be inserted into, because the code would then erase the end of an empty index (`EvictsFromNothing`).
- LimitedMap.Run: runs never set the limit to one; keys and values are integers.
- LockedPages.LockedPageManager.constructor: addresses have 64 bits; a page size of 0, which the assertion lets pass although no system has it, is excluded.
- LockedPages.LockedPageManager.LockRange: counters are unbounded, and a block must end at least a page before the last address, where the loop of the code would wrap around.
- `CBloomFilter::IsWithinSizeConstraints`: a comparison of two sizes with constants.
- Bloom.CBloomFilter.constructor: the sizes computed in floating point are parameters; the array is not empty and there is at least one hash function.
- Bloom.CBloomFilter.IsRelevantAndUpdate: a script is the list of data elements that GetOp yields, with one bit for the answer of Solver.
- Key store, alerts, wallet, keys and signatures, encryption, RPC, network, database wrappers, user interface, logging and locks.
