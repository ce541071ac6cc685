# Verified models of a Bitcoin node's data structures

This project models, in Dafny, the self-contained data structures and protocols of a full node, and proves what they
promise for every input, every run and every reachable state.

- **Peer addresses** (`AddrMan*.dfy`): the address manager, with its entries, address index, random order, "new" and
  "tried" tables and counts. One invariant ties them together; every public call keeps it, the manager's own consistency
  check accepts exactly the states of the invariant, and saving and loading restore the manager; from a file in another
  format exactly the first claimants of each slot are kept. Each call's effect on every entry is stated field by field.
  The two-stage hash keeps the addresses of one group, and what one group of sources can change, to a few buckets in
  every run.
- **Script check queue** (`CheckQueue.dfy`, `CheckQueueShares.dfy`): a master and any number of workers as a state machine of critical sections,
  with verdict, conservation of checks, no lost wake-up, no deadlock and termination in every interleaving; the code of a
  critical section is proved to be one step of the machine.
- **UTXO caches** (`Coins.dfy`, `CoinsFlags.dfy`): stacks of caches with DIRTY and FRESH flags refine a plain map over whole runs, through
  flushes at any depth, also for what a throw leaves behind; what was only read is never written, and what came and went
  leaves no trace.
- **Merkle trees** (`Merkle*.dfy`, `PartialMerkleTree.dfy`): the recursive tree, the constant-space computation of root,
  repetition flag and branch, what the flag detects, when a branch verifies, and the partial tree of BIP 37 with its
  round trip, soundness, the exact set of accepted proofs, and size in hashes, bits and bytes.
- **256-bit arithmetic** (`Limbs.dfy`, `LimbShift.dfy`, `LongDivision.dfy`, `BaseUint.dfy`, `Compact.dfy`): operations in
  place on arrays of limbs refine arithmetic on natural numbers; the compact format rounds down and is unique; block
  work is exact.
- **Block index** (`Chain.dfy`, `SkipList.dfy`): skip list, active chain, fork point, common ancestor and locator against
  the path of predecessors, how near a locator comes to any common block, and the greatest number of steps of a
  search in the skip list, exactly.
- **Filters and caches** (`RollingBloom.dfy`, `Bloom.dfy`, `Cuckoo.dfy`): exactly which keys the rolling filter reports,
  exactly when the plain filter misses no key, and that a cuckoo insertion loses at most one element,
  none along a way of displacements that ends in time, and doubles none.
- **Compact blocks** (`CompactBlocks.dfy`, `CompactGather.dfy`, `CompactRelay.dfy`, `CompactRequest.dfy`,
  `CompactExchange.dfy`): for any message what the receiver does with it, and what announcement, request and answer come
  to for a block of any length (BIP 152).
- **Text encodings** (`Base58.dfy`, `Bech32.dfy`, `Bech32Zeros.dfy`, `Bech32Errors.dfy`, `Bech32Example.dfy`,
  `Galois.dfy`): encoders and decoders that undo each other, buffer bounds, and the checksum of BIP 173, which finds
  every burst within six places and every three errors within 1023.

`Wrappers.dfy`, `Counting.dfy`, `Folding.dfy`, `Nonlinear.dfy`, `Bits.dfy`, `Powers.dfy` and `Positional.dfy` hold what
the others share. `dafny verify dfyconfig.toml` checks the whole project.

How the models are made:

- Objects that the code updates in place are classes; their methods change the same fields and arrays and are proved
  against functions on values, about which the theorems are stated.
- Hash functions, random draws, clocks and sizes computed in floating point are parameters. A hash is taken to be
  injective only where a statement says so.
- Integers are unbounded; where a width matters it is written out (32-bit limbs, 16-bit indexes, 256-bit numbers, the
  32-bit leaf counter and its padding, the 32-bit epoch size, the 64-bit differences). Words and bytes that are only
  masked and shifted are sequences of bits.

Where the code does not do what its documentation, or a first reading, suggests, the code is modelled and the exact
condition is proved:

- `Good_` with a time that is not positive, and `Attempt_` with a negative one, produce states the manager's consistency
  check rejects (`GoodTimes`, `AttemptTimes`).
- `Add_` reports a new address even when the newcomer loses its slot and is deleted at once (`AddNewcomer`).
- `AddCoin` told that nothing is overwritten, when something is, leaves a coin that spending brings back
  (`AddKeepsFlags`, `WrongPromiseResurrects`); `AddCoins` keeps the flags right exactly under `OutputsFree` or when it
  checks. `SpendCoin` also reports true for a cached coin that is already spent (`SpendReports`, `SpentTwice`). Flushing a
  cache that does not know its best block can lose the parent's (`FlushBestBlock`, `BestBlockLost`).
- A saved address manager with a negative count is read without complaint, and its counts are wrong exactly then
  (`LoadedCounts`, `NegativeCount`).
- The documented bound of 2N-1 flag bits of a partial Merkle tree ignores nodes with one child (`BitBound`,
  `FiveTransactions`).
- The documented size of a partial Merkle tree is exceeded above 65535 hashes, which the largest blocks reach, and where
  lone children cost a byte more (`SizeBound`, `LargeBlock`, `ManyLoneNodes`).
- The constant-space Merkle computation pads its leaf count in 32 bits, which wraps to zero above 2^31 leaves
  (`MerkleComputation`, `PaddedWraps`, `WrapsAtOneMore`).
- The repetition flag of a Merkle root detects every pair of lists with trees of the same height; trees of different
  heights share a root without it exactly when one list is a level of the other's tree (`SameRootSameList`,
  `SameRootExactly`, `LeafOrPair`).
- Multiplying a number by itself in place gives zero (`MultiplyAssign`).
- A Bloom filter without hash functions forgets its keys once its flags are recomputed, and a received filter takes in
  nothing before they are (`UpdateEmptyFull`, `NoHashFunctions`, `InsertTooEarly`).
- The epoch size of a cuckoo table is a 32-bit product that wraps above 95443717 slots (`EpochExactly`, `EpochWraps`).
- A cuckoo insertion first swaps at the second of an element's places; the comment in the code says the first
  (`SwapOut`). It may take out again the element it has just put in, exactly when two neighbouring places of the one
  carried are the same (`NotBack`, `BackAgain`).
- Compact blocks keep positions in 16 bits. With all of the first 65536 positions prefilled and a short id besides, the
  scan for a free slot never ends (`ScansEnd`, `InitData`); beyond 65536 transactions short ids lead to wrong places and
  the exchange fails or ends in a wrong block (`LongBlock`, `SendLongBlock`, `SendToFullPool`); a request that passes
  position 65535 starts again from zero (`ReadIsRequest`, `PassesLast`).

## Model

| member | source | states |
|---|---|---|
| `AddrManModel.SwapRandomOk` | src/addrman.cpp:93-111 | swapping keeps the random order and the positions noted in the entries inverse to each other |
| `AddrManModel.SwapRandomPermutes` | src/addrman.cpp:93-111 | the random order after a swap is a permutation of the one before |
| `AddrManModel.DeleteRemoves` | src/addrman.cpp:113-125 | deletion removes one entry, its address and its place in the random order, and changes nothing about the others but their places |
| `AddrManModel.DeleteCore` | src/addrman.cpp:113-125 | deleting an untried entry without references keeps all indexes, tables and counts consistent |
| `AddrManModel.ClearNewCore` | src/addrman.cpp:127-140 | clearing a new slot frees exactly that slot and keeps every structure consistent |
| `AddrManModel.ClearNewOthers` | src/addrman.cpp:127-140 | nobody but the occupant is affected, and the occupant survives exactly when it has another reference |
| `AddrManOps.EvicteeUntouched` | src/addrman.cpp:163-176 | clearing the slot an evicted entry returns to never deletes the evicted entry itself |
| `AddrManOps.EvictCore` | src/addrman.cpp:161-182 | after an eviction the slot is free, the evicted entry is back in the new table and everything is consistent again |
| `AddrManOps.MakeTriedInv` | src/addrman.cpp:142-188 | moving an untried entry to the tried table keeps the whole invariant, so none of its assertions fails |
| `AddrManOps.MakeTriedOwn` | src/addrman.cpp:142-188 | the moved entry ends up tried, without references, and otherwise unchanged |
| `AddrManOps.PlaceInv` | src/addrman.cpp:291-311 | competing for a slot keeps the invariant whether the entry wins, loses, or is deleted |
| `AddrManOps.GoodInv` | src/addrman.cpp:190-240 | Good_ keeps the invariant for any service and any time |
| `AddrManOps.AddInv` | src/addrman.cpp:242-313 | Add_ keeps the invariant for any address, source, penalty, clock and dice |
| `AddrManOps.StatisticsInv` | src/addrman.cpp:315-335 | Attempt_, Connected_ and SetServices_ keep the invariant |
| `AddrManTheorems.EvictFate` | src/addrman.cpp:161-182 | an eviction forgets at most one entry, the single-reference holder of the returning slot; every other entry keeps its table and statistics |
| `AddrManTheorems.AddFate` | src/addrman.cpp:242-313 | Add_ forgets an entry only if it was untried, had a single reference and was terrible |
| `AddrManTheorems.AddNewcomer` | src/addrman.cpp:284-312 | an unknown routable host becomes known unless its slot is held by a decent single-reference entry; the result is true in both cases |
| `AddrManTheorems.GoodFate` | src/addrman.cpp:190-240 | the entry becomes tried with its last success and try at that time and no failures, and keeps service, offers, time, source and last counted attempt; the displaced one goes back to the new table, and only the single-reference holder of the returning slot can be forgotten |
| `AddrManEntries.GoodClock` | src/addrman.cpp:190-206 | the time of the last success is noted for known and unknown services alike, and an unknown one changes nothing else |
| `AddrManEntries.GoodTouches` | src/addrman.cpp:146-240 | the entry leaves all its new slots for its tried slot; elsewhere the new table changes only in the buckets of the source group of the one displaced, and the tried table nowhere |
| `AddrManEntries.AddKnown` | src/addrman.cpp:250-283 | an address heard again unites its services, moves its time on by the interval rule, keeps its other statistics, and gains at most one reference, exactly when it has news, room for one, luck in the draw and a slot for the taking |
| `AddrManEntries.AddUnknown` | src/addrman.cpp:242-313 | a newcomer that stays has one reference, the penalised time and no history; an unroutable address changes nothing |
| `AddrManEntries.AttemptOwn` | src/addrman.cpp:315-335 | an attempt is always noted, and counted as a failure only on request and once between two successes of any peer; nothing else changes |
| `AddrManEntries.ConnectedOwn` | src/addrman.cpp:483-501 | the time moves on only when it is more than twenty minutes behind; nothing else changes |
| `AddrManEntries.SetServicesOwn` | src/addrman.cpp:503-519 | the services are replaced and nothing else changes |
| `AddrManEntries.OneFailure` | src/addrman.cpp:315-335 | any number of vain attempts after the last success of any peer counts as at most one failure |
| `AddrManEntries.TerribleExactly` | src/addrman.cpp:33-51 | when an entry is given up: never within a minute of an attempt, by its time outside thirty days, after three failures if never reached, after ten if not reached for seven days |
| `AddrManEntries.JustReached` | src/addrman.cpp:33-51 | an entry just reached or just tried is not terrible, whatever else is known of it |
| `AddrManEntries.ThreeFailures` | src/addrman.cpp:190-335 | three failures with a success of another peer before each make a peer that was never reached terrible a minute later |
| `AddrManTheorems.GoodTimes` | src/addrman.cpp:190-217 | Good_ keeps the time conditions of the consistency check exactly when the time is positive or the service unknown |
| `AddrManTheorems.AttemptTimes` | src/addrman.cpp:315-335 | Attempt_ keeps them exactly when the time is not negative or the service unknown |
| `AddrManTheorems.AddTimes` | src/addrman.cpp:242-313 | Add_ always keeps them |
| `AddrManTheorems.ReshuffledInv` | src/addrman.cpp:462-481 | a manager that differs only in its random order satisfies the invariant too |
| `AddrManTheorems.Next` | src/addrman.cpp:190-335 | every public call keeps the invariant and the key |
| `AddrManTheorems.Run` | src/addrman.cpp:81-335 | every sequence of calls keeps the invariant |
| `AddrManTheorems.RunTimes` | src/addrman.cpp:385-459 | every sequence of calls with sensible times keeps the time conditions |
| `AddrManTheorems.EmptyInv` | src/addrman.h:456-478 | a cleared manager satisfies the invariant |
| `AddrManTheorems.DecentAnswers` | src/addrman.cpp:468-480 | the decent ones among the first entries of any random order are different known addresses, none of them terrible, and none that is decent is left out |
| `AddrManGroups.FewBuckets` | src/addrman.h:147-151 | an address group selects at most 8 tried buckets, and a source group at most 64 new ones |
| `AddrManGroups.BucketsByGroup` | src/addrman.cpp:12-25 | the two-stage hash puts an address in a bucket that its own group selects, or its source's group: one of 8, or of 64, by the first hash |
| `AddrManGroups.OneBucketPerGroups` | src/addrman.cpp:19-25 | addresses of one group announced by sources of one group share their new bucket |
| `AddrManGroups.TriedGroupBound` | src/addrman.h:127-131 | in every state of every run the tried addresses of one group lie in at most 8 buckets |
| `AddrManGroups.AddTouches` | src/addrman.cpp:242-313 | one announcement changes no bucket outside those of its source's group, evictions included |
| `AddrManGroups.AnnouncementsTouch` | src/addrman.h:119-126 | however many addresses the sources of one group announce, at most 64 new buckets and no tried one change |
| `AddrManCheck.CheckExactly` | src/addrman.cpp:385-459 | the consistency check accepts exactly the states of the invariant, among those without the faults it does not look for: addresses of no entry, a missing address of entry 0, ids never handed out, buckets that do not exist |
| `AddrManCheck.EveryRunPassesCheck` | src/addrman.cpp:385-459 | after every run from a cleared manager the consistency check returns no error |
| `AddrMan.GoodReady` | src/addrman.cpp:219-239 | under the invariant Good_ always finds a bucket holding the entry, and every move it makes is possible |
| `AddrMan.AddReady` | src/addrman.cpp:242-313 | under the invariant every placement Add_ makes is possible |
| `AddrMan.Manager.constructor` | src/addrman.h:480-483 | a manager is created empty and consistent |
| `AddrMan.Manager.Clear` | src/addrman.h:456-478 | whatever was held before, the manager is empty and consistent afterwards |
| `AddrMan.Manager.Find` | src/addrman.cpp:68-79 | an id is found exactly for a known host, and it is the host's |
| `AddrMan.Manager.CreateEntry` | src/addrman.cpp:81-91 | the array-and-map update agrees with the specification of creating an entry under the next id |
| `AddrMan.Manager.SwapEntries` | src/addrman.cpp:93-111 | the in-place swap agrees with its specification, and changes entries and random order only |
| `AddrMan.Manager.DeleteEntry` | src/addrman.cpp:113-125 | the in-place deletion agrees with its specification |
| `AddrMan.Manager.ClearNewSlot` | src/addrman.cpp:127-140 | the in-place clearing of a slot agrees with its specification; the reference count is positive before it is decremented |
| `AddrMan.Manager.DropReferences` | src/addrman.cpp:144-154 | one pass over the buckets takes the entry out of every slot and leaves its reference count at zero |
| `AddrMan.Manager.EmptySlots` | src/addrman.cpp:144-153 | every slot that holds the entry is emptied, no other one, and the count falls by as many |
| `AddrMan.Manager.SendBackToNew` | src/addrman.cpp:162-181 | the occupant of a tried slot is taken out and entered into the new table again |
| `AddrMan.Manager.MakeEntryTried` | src/addrman.cpp:142-188 | the in-place move agrees with its specification, the assertions included |
| `AddrMan.Manager.FindNewBucket` | src/addrman.cpp:219-234 | the search from a random bucket cannot come back empty-handed |
| `AddrMan.Manager.Good_` | src/addrman.cpp:190-240 | Good_ keeps the manager valid and does what its specification says, whichever bucket the search starts at; GoodFate, GoodClock and GoodTouches say what that is |
| `AddrMan.Manager.RefreshEntry` | src/addrman.cpp:256-283 | a known entry is refreshed as AddKnown describes, and goes on exactly when it has news, is untried, has a reference to spare and wins the draw |
| `AddrMan.Manager.RegisterEntry` | src/addrman.cpp:285-287 | a newcomer is entered under a fresh id with its penalised time |
| `AddrMan.Manager.SettleInNew` | src/addrman.cpp:291-311 | the slot is taken, kept or given up as specified |
| `AddrMan.Manager.Add_` | src/addrman.cpp:242-313 | Add_ keeps the manager valid and does what its specification says, the returned flag included; AddKnown, AddUnknown, AddFate and AddNewcomer say what that is |
| `AddrMan.Manager.Attempt_` | src/addrman.cpp:315-335 | only the statistics of the exact service change |
| `AddrMan.Manager.Connected_` | src/addrman.cpp:483-501 | only the time of the exact service changes, and only when it is old enough |
| `AddrMan.Manager.SetServices_` | src/addrman.cpp:503-519 | only the services of the exact service change |
| `AddrMan.Manager.Shuffle` | src/addrman.cpp:468-480 | for any draws the answer is the decent entries among the first ones of the new order, in that order, up to the limit and stopping only there; the manager is only reshuffled |
| `AddrMan.Manager.GetAddr_` | src/addrman.cpp:462-481 | at most 23% of the known addresses and at most 2500 are returned, all different and none terrible, and fewer only if all entries were looked at |
| `AddrManRoundTrip.SavedCounts` | src/addrman.h:309-335 | as many entries of each kind are written as exist, so the counts written before the lists are right |
| `AddrManRoundTrip.NewWithinLimit` | src/addrman.h:371-373 | the number of new entries never exceeds the limit enforced on reading |
| `AddrManRoundTrip.TriedWithinLimit` | src/addrman.h:375-377 | nor does the number of tried entries |
| `AddrManRoundTrip.LoadIndexIsRef` | src/addrman.h:420-436 | reading the number written for a slot refills exactly that slot |
| `AddrManRoundTrip.NothingToPrune` | src/addrman.h:438-448 | where every entry has a reference or is tried, pruning removes nothing |
| `AddrManRoundTrip.RoundTrip` | src/addrman.h:300-454 | reading back what was written never fails, loses nothing and prunes nothing; entries, counts and both tables are the same under new numbers, and the invariant holds |
| `AddrManRoundTrip.SavedAccepted` | src/addrman.h:299-313 | what is written has version 1, a key of 32 bytes, 1024 buckets with bit 30 of their number flipped, and is accepted |
| `AddrManUpgrade.OtherFormat` | src/addrman.h:372-447 | from any accepted file whose buckets cannot be used, exactly the first new entry to ask for the slot of its own source is kept, as written and with that reference, and every tried slot asked for holds the first to ask for it |
| `AddrManUpgrade.PruneExactly` | src/addrman.h:438-447 | exactly the untried entries without a reference are forgotten |
| `AddrManRoundTrip.RenumberOneToOne` | src/addrman.h:313-324 | no two entries are written under the same number |
| `AddrManStream.Serialize` | src/addrman.h:300-347 | the loops write exactly the specified lists, and the assertions on the counts hold |
| `AddrManStream.Unserialize` | src/addrman.h:349-454 | for any record, with any counts and lists, the loops rebuild in place what the specification says, and fail exactly where it fails; what is beyond the counts is not read |
| `AddrManCounts.LoadedCounts` | src/addrman.h:349-454 | whatever else a record says, the manager read from it counts its entries right exactly when neither count was negative |
| `AddrManCounts.NegativeCount` | src/addrman.h:361-410 | the failing input: after minus one new entries a tried one is given the id -1, and its slot reads as empty |
| `AddrManStream.SaveAndLoad` | src/addrman.h:300-454 | a valid manager read into any other one, whatever that held, gives a valid manager equal up to numbering |
| `CheckQueue.StartInv` | src/checkqueue.h:131-131 | the queue starts in its invariant, for any batch size and any number of workers |
| `CheckQueue.EvaluateInv` | src/checkqueue.h:118-121 | evaluating or skipping one check of a batch, with any result, keeps the invariant |
| `CheckQueue.LockInv` | src/checkqueue.h:74-117 | every critical section keeps it: what is to do is what is queued and held, no check is lost or doubled, and no failure is forgotten |
| `CheckQueue.AddInv` | src/checkqueue.h:146-158 | adding checks keeps it, whoever is woken |
| `CheckQueue.DecideOk` | src/checkqueue.h:107-114 | the batch size never divides by zero and lies between one and the queue length |
| `CheckQueueShares.BatchExactly` | src/checkqueue.h:107-114 | the batch is the greatest within the limit and one share of the queue, where every thread has a share, every idle one a second and one is left over; but never empty |
| `CheckQueueShares.PoppedAt` | src/checkqueue.h:115-121 | a batch is the end of the queue, the last check first |
| `CheckQueueShares.AddWakes` | src/checkqueue.h:146-158 | added checks go to the end; two or more wake every waiting worker, one wakes one, none nobody, and no other thread is disturbed |
| `CheckQueueShares.AfterFailure` | src/checkqueue.h:74-131 | once a check has failed, no interleaving evaluates more than what the threads have in hand before the verdict |
| `CheckQueue.ReturnsIdle` | src/checkqueue.h:88-97 | when Wait returns no worker holds a batch and nothing is left over |
| `CheckQueue.Verdict` | src/checkqueue.h:88-97 | the verdict is true only if every check added since the last return was evaluated exactly as often as added and none failed, and false only if one failed |
| `CheckQueue.Run` | src/checkqueue.h:66-158 | every interleaving of every length keeps the invariant |
| `CheckQueue.EveryVerdict` | src/checkqueue.h:66-158 | in every interleaving from the start a verdict is about exactly the checks of its round, and the next round starts clean |
| `CheckQueue.WakeUpNotLost` | src/checkqueue.h:77-82 | a blocked master nobody has notified means some worker holds a batch |
| `CheckQueue.NoDeadlock` | src/checkqueue.h:66-124 | while the master is in Wait, some thread can take a genuine step |
| `CheckQueue.WorkShrinks` | src/checkqueue.h:66-124 | every genuine step short of returning or adding brings Wait closer to its end |
| `CheckQueue.WaitEnds` | src/checkqueue.h:139-143 | Wait cannot go on for more steps than the work there was at its start |
| `CheckQueue.Shared.constructor` | src/checkqueue.h:131-131 | the shared fields start as the model does |
| `CheckQueue.Shared.AddChecks` | src/checkqueue.h:146-158 | the fields change as the model's adding step, and one worker is notified for one check, all for more, none for none |
| `CheckQueue.Shared.PopBatch` | src/checkqueue.h:107-114 | the last checks leave the queue, last first, and the rest stays |
| `CheckQueue.Shared.CleanUp` | src/checkqueue.h:76-86 | the fields change as the model's clean-up, and the master is notified exactly when a worker finished the last check |
| `CheckQueue.Shared.LoopHead` | src/checkqueue.h:87-116 | the thread returns, waits or takes a batch as in the model |
| `CheckQueue.Shared.CriticalSection` | src/checkqueue.h:74-117 | the code between taking and releasing the lock is one step of the model, threads and notification of the master included, and a return gives the model's verdict |
| `Coins.FetchKeeps` | src/coins.cpp:40-55 | reading through caches of any depth changes no view and no flag's promise |
| `Coins.FetchFinds` | src/coins.cpp:40-64 | afterwards the top cache holds the coin exactly if any cache below or the database had it |
| `Coins.UncacheKeeps` | src/coins.cpp:210-217 | dropping an unmodified entry changes no view |
| `Coins.SpendRemoves` | src/coins.cpp:98-112 | SpendCoin removes exactly one key from the view and reports true for every unspent coin |
| `Coins.SpendReports` | src/coins.cpp:98-112 | it reports true exactly for an unspent coin or a cached entry, so the report is right exactly when the cache does not hold the coin as spent |
| `Coins.SpentTwice` | src/coins.cpp:98-112 | the failing input: a coin of the database, spent twice, is reported twice |
| `Coins.AddSets` | src/coins.cpp:66-85 | AddCoin sets exactly one key, or none when the output can never be spent, and throws exactly when told not to overwrite an unspent cached coin |
| `Coins.AddKeepsFlags` | src/coins.cpp:66-85 | the flags stay right exactly when the caller allows overwriting or no unspent coin exists |
| `Coins.WrongPromiseResurrects` | src/coins.cpp:66-85 | what a wrong promise costs: spending the new coin brings the overwritten one back |
| `Coins.MergeRight` | src/coins.cpp:145-201 | under the flags' promises a merge never reaches the "FRESH flag misapplied" throw, shows what the child showed and keeps the parent's promises to the grandparent |
| `Coins.FlushMovesView` | src/coins.cpp:145-208 | after a flush the parent, of any depth, shows exactly what the child showed and is well formed |
| `Coins.FlushNeverThrows` | src/coins.cpp:170-176 | flushing a well-formed cache into a cache never throws |
| `Coins.FlushBestBlock` | src/coins.cpp:145-208 | over a cache or the database, the best block survives a flush exactly when the flushed cache knows it or the base had nothing of its own to forget |
| `Coins.BestBlockLost` | src/coins.cpp:145-208 | the failing input: a new cache, flushed before it was asked, takes its parent back to the block of the database |
| `Coins.StepRefines` | src/coins.cpp:40-217 | every operation, a new cache and a dropped one included, does to the view what the plain operation does to a map |
| `Coins.EveryRunRefines` | src/coins.cpp:40-217 | any run on any stack of caches shows at its end what the plain map holds |
| `Coins.WriteToCache` | src/coins.cpp:145-201 | whatever the order of the entries, each is merged once; a throw means a misapplied FRESH flag, and leaves merged what came before it and in the child the rest |
| `Coins.WriteToDisk` | src/txdb.cpp:84-143 | the database holds the written unspent coins, not the spent ones, and otherwise what it held |
| `Coins.CoinsViewCache.constructor` | src/coins.cpp:34-34 | a new cache shows what its base shows |
| `Coins.CoinsViewCache.FetchCoin` | src/coins.cpp:40-55 | the in-place read agrees with its specification at every depth |
| `Coins.CoinsViewCache.GetCoin` | src/coins.cpp:57-64 | the coin returned is the one the view shows, and none if it is spent |
| `Coins.CoinsViewCache.AddCoin` | src/coins.cpp:66-85 | the in-place update agrees with its specification, and a throw changes nothing |
| `Coins.CoinsViewCache.SpendCoin` | src/coins.cpp:98-112 | the in-place update agrees with its specification and moves the spent coin out |
| `Coins.CoinsViewCache.Uncache` | src/coins.cpp:210-217 | the in-place removal agrees with its specification |
| `Coins.CoinsViewCache.BatchWrite` | src/coins.cpp:145-201 | the entries are merged as specified; a throw means a misapplied flag, and leaves exactly the entries merged before it |
| `Coins.CoinsViewCache.Flush` | src/coins.cpp:203-208 | on a well-formed stack nothing is thrown, the base takes over the whole view and the emptied cache still shows it; on any other a throw leaves the base partly merged and the rest in the cache |
| `Coins.CoinsViewCache.GetBestBlock` | src/coins.cpp:135-139 | the best block is the one the stack knows, and remembering it changes no answer |
| `Coins.OneMorePromise` | src/coins.cpp:87-96 | a wrong promise for one output is not repaired by the next |
| `Coins.AddCoins` | src/coins.cpp:87-96 | nothing is thrown and the flags stay right exactly when it checks, or adds a coinbase, or no spendable output exists unspent; as far as it comes, exactly the spendable outputs are added |
| `CoinsFlags.UnspendableScripts` | src/script/script.h:690-696 | scripts that begin with OP_RETURN or exceed 129000 bytes, and no others, can never be spent |
| `CoinsFlags.FetchEntries` | src/coins.cpp:37-53 | reading adds at most one clean entry, with the coin of the base, and changes no other |
| `CoinsFlags.CleanFlush` | src/coins.cpp:145-208 | flushing clean entries only tells the base of the best block |
| `CoinsFlags.ReadOnlyFlush` | src/coins.cpp:37-208 | whatever was read through a new cache, flushing it leaves every coin and entry of its base |
| `CoinsFlags.UncacheDrops` | src/coins.cpp:216-223 | uncaching drops exactly a clean entry |
| `CoinsFlags.SpendEntry` | src/coins.cpp:96-111 | a fresh entry is gone after spending, any other is dirty, spent and not fresh, and no other entry changes |
| `CoinsFlags.AddEntry` | src/coins.cpp:64-85 | an added coin is dirty, and fresh exactly if its entry was or if nothing is to be overwritten and the entry is not dirty; no other entry changes |
| `CoinsFlags.CameAndWent` | src/coins.cpp:64-111 | a coin created and spent inside one cache leaves no trace in it |
| `CoinsFlags.MergeEntry` | src/coins.cpp:145-200 | what a parent's entry becomes under a child's: unchanged, gone, or the child's coin dirty and fresh exactly if nobody below knows of it; and exactly when the write throws |
| `MerkleTree.InTree` | src/merkleblock.h:66-68 | a node lies inside its level's width exactly when its first leaf exists |
| `MerkleTree.WidthIsShift` | src/merkleblock.h:66-68 | halving level by level gives the width that adding and shifting gives |
| `MerkleTree.WidthFits` | src/merkleblock.h:66-68 | the sum in the width computation stays within 32 bits up to the height of the tree |
| `MerkleTree.CalcHashIsLevel` | src/merkleblock.cpp:40-58 | the recursive hash of a node is its entry in the tree built level by level |
| `MerkleTree.NoTwinsWhenDistinct` | src/merkleblock.cpp:101-107 | with distinct ids and no collisions no two nodes of a level have the same hash |
| `MerkleRoot.AddLeaf` | src/consensus/merkle.cpp:65-90 | folding in a leaf keeps the hashes of the complete subtrees, notices exactly the equal halves it completes, and follows the wanted leaf |
| `MerkleRoot.FoldLeaves` | src/consensus/merkle.cpp:64-90 | after all leaves the flag is exact for the whole list |
| `MerkleRoot.Sweep` | src/consensus/merkle.cpp:91-127 | with the padded count cut to 32 bits, closing the odd levels reaches the hash of the recursive tree's root and completes the branch, exactly for up to 2^31 leaves |
| `MerkleCounter.PaddedWraps` | src/consensus/merkle.cpp:101-127 | for every number of leaves above 2^31 the padded count becomes zero one level below the top, with two nodes still to combine |
| `MerkleCounter.WrapsAtOneMore` | src/consensus/merkle.cpp:101-127 | at 2^31 + 1 leaves the last addition makes the count zero before the top is reached |
| `MerkleRoot.MerkleComputation` | src/consensus/merkle.cpp:46-131 | the constant-space computation gives the root of the recursive tree, the exact repetition flag and the branch of any leaf exactly for up to 2^31 leaves; for more, up to the counter's range, its bit test runs past 32 bits |
| `MerkleRoot.ComputeMerkleRoot` | src/consensus/merkle.cpp:133-137 | up to 2^31 leaves the root is that of the recursive tree, null for no leaves, and the flag says exactly whether complete equal siblings exist; above, and only there, nothing is promised |
| `MerkleRoot.ComputeMerkleBranch` | src/consensus/merkle.cpp:139-143 | under the same exact condition, the siblings from a leaf to the root, one for each level; none for a position beyond the list |
| `MerkleRoot.ProveAndVerify` | src/consensus/merkle.cpp:139-156 | under the same exact condition, verifying the computed branch of any position gives the root |
| `MerkleBranch.ComputeMerkleRootFromBranch` | src/consensus/merkle.cpp:145-156 | the loop hashes up the branch, siding by the bits of the index |
| `MerkleBranch.BranchExactly` | src/consensus/merkle.cpp:145-156 | without collisions a branch of the tree's height gives the root exactly for the true leaf with its true siblings |
| `MerkleMutation.Incomplete` | src/consensus/merkle.cpp:73-84 | an incomplete subtree can equal a complete one only if complete siblings inside that one are equal |
| `MerkleMutation.MutatedExactly` | src/consensus/merkle.cpp:73-84 | looking at complete siblings only misses nothing: the flag is raised exactly when any siblings are equal |
| `MerkleMutation.SameRootSameList` | src/consensus/merkle.cpp:9-42 | without collisions, of two different lists with trees of one height and the same root the flag is raised for at least one |
| `MerkleMutation.SameRootExactly` | src/consensus/merkle.cpp:9-42 | without collisions, any two unflagged lists share a root exactly when the one with the lower tree is a level of the other's tree |
| `MerkleMutation.RepeatedTail` | src/consensus/merkle.cpp:14-29 | every list ending in a lone complete subtree shares its root with the list that repeats it, for which the flag is raised |
| `MerkleMutation.DistinctNotMutated` | src/consensus/merkle.cpp:73-84 | the flag is never raised for a list of different ids |
| `MerkleMutation.LeafOrPair` | src/consensus/merkle.cpp:40-42 | trees of different heights can share a root unflagged, so the height condition is needed |
| `MerkleBlock.WalkSound` | src/merkleblock.cpp:78-114 | whatever bits and hashes arrive, a node whose computed hash is the true one yields only true pairs of id and index |
| `MerkleBlock.WalkBuild` | src/merkleblock.cpp:60-114 | decoding an encoded node gives its true hash, uses all its bits and hashes, and finds exactly the matches below it |
| `MerkleBlock.DistinctNoTwins` | src/merkleblock.cpp:101-107 | with distinct ids and no collisions the decoder never meets two equal children |
| `MerkleBlock.HashesAtMostLeaves` | src/merkleblock.h:36-40 | a node costs at least one hash and at most one for each leaf below it |
| `MerkleBlock.HashesByMatches` | src/merkleblock.h:36-40 | a node costs at most one hash and one more for each level below each match |
| `MerkleBlock.BitsExactly` | src/merkleblock.h:47-47 | the number of flag bits is that of a binary tree and one more for each lone child |
| `MerkleBlock.HashBound` | src/merkleblock.h:36-40 | both documented bounds on the number of hashes |
| `MerkleBlock.BitBound` | src/merkleblock.h:41-47 | the documented bound of 2N-1 bits holds exactly when no level ends in a lone child on the way to a match; with the height added it always holds |
| `MerkleBlock.FiveTransactions` | src/merkleblock.h:47-47 | five transactions with the last one matched need five bits for two hashes |
| `MerkleSize.SizeBound` | src/merkleblock.h:31-48 | the guaranteed size of 10 + ceil(32.25 N) bytes holds exactly for a choice of transactions with at most 65535 leaves visited, and few enough lone children that the bits fit in 252 bytes or in those of 2N-1 bits |
| `MerkleSize.HashesExactly` | src/merkleblock.h:36-40 | the number of hashes is that of the leaves visited, which the choice of transactions decides |
| `MerkleSize.LargeBlock` | src/merkleblock.h:31-48 | with more than 65535 transactions, all matched, the tree is larger than guaranteed |
| `MerkleSize.ManyLoneNodes` | src/merkleblock.h:31-48 | 1025 transactions, all matched, take 2059 bits and 33068 bytes, one more than guaranteed |
| `MerkleSize.FewLoneNodes` | src/merkleblock.h:41-47 | a block as large as allowed has at most 17 levels that end in a lone child |
| `PartialMerkleTree.Pack` | src/merkleblock.h:99-103 | the bits are packed eight to a byte, the lowest first |
| `PartialMerkleTree.Unpack` | src/merkleblock.h:92-98 | every bit of every byte is unpacked |
| `PartialMerkleTree.ExtractedSound` | src/merkleblock.cpp:132-163 | if the extracted root is the non-null root of a list of as many transactions, every extracted id stands in it at its index, each index once and in order |
| `PartialMerkleTree.RoundTrip` | src/merkleblock.cpp:60-163 | after packing and unpacking exactly the matches come out, in order, with the true root, or the null root exactly when the encoder met two equal siblings |
| `PartialMerkleTree.RoundTripDistinct` | src/merkleblock.cpp:60-163 | with distinct ids and no collisions the round trip always succeeds |
| `PartialMerkleTree.ComputeHeight` | src/merkleblock.cpp:121-124 | the loop finds the lowest level with at most one node |
| `PartialMerkleTree.PartialTree.constructor` | src/merkleblock.cpp:116-128 | the object holds the specified encoding of the whole tree |
| `PartialMerkleTree.PartialTree.Empty` | src/merkleblock.cpp:130-130 | an empty tree is bad until one is read into it |
| `PartialMerkleTree.PartialTree.TraverseAndBuild` | src/merkleblock.cpp:60-76 | the recursion appends the specified bits and hashes of the node to what is there |
| `PartialMerkleTree.PartialTree.TraverseAndExtract` | src/merkleblock.cpp:78-114 | the recursion advances both counters, appends to both lists and raises the bad flag as specified, on any input |
| `PartialMerkleTree.PartialTree.ExtractMatches` | src/merkleblock.cpp:132-163 | the root and matches are as specified, which AcceptedExactly, OneList and NoPadding describe; the list of ids is emptied first, the list of indexes is only added to |
| `MerkleProof.WalkReads` | src/merkleblock.cpp:78-115 | every proof tree is read as the root and matches it stands for |
| `MerkleProof.WalkIsProof` | src/merkleblock.cpp:78-115 | whatever the decoder goes through without complaint is a proof tree |
| `MerkleProof.AcceptedExactly` | src/merkleblock.cpp:132-163 | a root comes out exactly when the bits and hashes are one whole proof tree, with fewer than eight bits of padding and no twin children, for a possible number of transactions |
| `MerkleProof.OneList` | src/merkleblock.cpp:132-163 | with the same bits a root comes from one list of hashes only |
| `MerkleProof.NoPadding` | src/merkleblock.cpp:153-161 | with more or fewer hashes, or a byte of bits or more added, no root comes out |
| `PartialMerkleTree.PartialTree.Serialize` | src/merkleblock.h:88-105 | what is written holds the tree |
| `PartialMerkleTree.PartialTree.Unserialize` | src/merkleblock.h:88-105 | what was read replaces the tree and clears the bad flag |
| `PartialMerkleTree.SendAndExtract` | src/merkleblock.cpp:60-163 | from one object to another, the receiver gets the true root and exactly the matches |
| `BaseUint.Number.Assign` | src/arith_uint256.h:94-101 | the limbs stand for the 64-bit number |
| `BaseUint.Number.AddAssign` | src/arith_uint256.h:141-151 | addition modulo 2^(32 width), also of a number to itself |
| `BaseUint.Number.Increment` | src/arith_uint256.h:179-186 | one more, or zero after the greatest number |
| `BaseUint.Number.Decrement` | src/arith_uint256.h:196-203 | one less, or the greatest number after zero |
| `BaseUint.Number.Inverted` | src/arith_uint256.h:75-81 | the greatest number less this one |
| `BaseUint.Number.Negated` | src/arith_uint256.h:83-90 | the number that adds up with this one to zero |
| `BaseUint.Number.SubtractAssign` | src/arith_uint256.h:153-157 | subtraction modulo 2^(32 width) |
| `BaseUint.Number.MultiplySmall` | src/arith_uint256.cpp:58-67 | multiplication by 32 bits, modulo 2^(32 width) |
| `BaseUint.Number.AddRow` | src/arith_uint256.cpp:74-80 | one row of the product is added at its place |
| `BaseUint.Number.MultiplyAssign` | src/arith_uint256.cpp:70-83 | multiplication modulo 2^(32 width) by any other number; by itself in place it gives zero |
| `BaseUint.NoOverflow` | src/arith_uint256.cpp:77-78 | the 64-bit intermediate of the products never overflows |
| `BaseUint.Number.ShiftLeft` | src/arith_uint256.cpp:24-38 | multiplication by a power of two modulo 2^(32 width), for any shift |
| `BaseUint.Number.ShiftRight` | src/arith_uint256.cpp:41-55 | division by a power of two, for any shift |
| `BaseUint.DivideAssign` | src/arith_uint256.cpp:86-109 | the quotient rounded down; for a zero divisor it throws and leaves zero |
| `BaseUint.DivideLoop` | src/arith_uint256.cpp:97-107 | the aligned shift-and-subtract loop finds the quotient |
| `BaseUint.Number.CompareTo` | src/arith_uint256.cpp:112-121 | the order of the numbers the limbs stand for |
| `BaseUint.Number.EqualTo` | src/arith_uint256.cpp:124-135 | equality with a 64-bit number, the high limbs included |
| `BaseUint.Number.BitCount` | src/arith_uint256.cpp:174-186 | the number of bits, zero for zero |
| `BaseUint.Number.GetLow64` | src/arith_uint256.h:251-255 | the number modulo 2^64 |
| `Compact.OverflowExactly` | src/arith_uint256.cpp:206-224 | the overflow condition holds exactly when the encoded number does not fit in 256 bits |
| `Compact.GreatestCompact` | src/arith_uint256.cpp:226-247 | no other compact number lies between a number and its encoding |
| `Compact.RoundedIs` | src/arith_uint256.cpp:206-247 | decoding an encoding gives the greatest compact number that is not more |
| `Compact.Layout` | src/arith_uint256.cpp:206-224 | a word is a byte of size, a sign bit and 23 bits of mantissa |
| `Compact.BySize` | src/arith_uint256.cpp:206-224 | the number a word stands for, for each size |
| `Compact.CompactNormal` | src/arith_uint256.cpp:226-247 | the encoding has no sign bit, a mantissa with its first byte needed, and nothing a decoder drops |
| `Compact.OneNormal` | src/arith_uint256.cpp:206-247 | a number has at most one such encoding |
| `Compact.RoundedMonotone` | src/arith_uint256.cpp:206-247 | rounding keeps the order |
| `Compact.RoundedIdempotent` | src/arith_uint256.cpp:206-247 | rounding twice is rounding once |
| `Compact.SetCompact` | src/arith_uint256.cpp:206-224 | the value is the encoded number modulo 2^256, with exact flags for negative and overflowing words |
| `Compact.GetCompact` | src/arith_uint256.cpp:226-247 | the word is the encoding of the number with the sign bit where it can matter, so the assertions hold |
| `Compact.NotAllOnes` | src/chain.cpp:127-133 | no target is all ones, so adding one never wraps around |
| `Compact.GetBlockProof` | src/chain.cpp:121-134 | zero for a negative, overflowing or zero target, otherwise floor(2^256 / (target + 1)), without dividing by zero |
| `SkipList.GetSkipHeight` | src/chain.cpp:73-81 | the skip height lies below the height |
| `SkipList.FromOdd` | src/chain.cpp:83-108 | from an odd height a search takes a step for every two ones down to the next multiple of a power of two, and exactly so when it does not end next to the bottom |
| `SkipList.StepsBound` | src/chain.cpp:73-81 | from any height up to 2^k to any lower one a search takes at most MostSteps(k) steps |
| `SkipList.StepsReached` | src/chain.cpp:73-81 | and from 2^k - 8 to height 2, for k from 15 on, exactly that many |
| `SkipList.MostStepsIs` | src/chain.cpp:73-81 | which is 3k - 8 + (k - 2)^2 / 4: the square of the number of bits, not the number |
| `SkipList.EighteenBits` | src/chain.cpp:77-79 | up to 2^18 blocks the most is 110, as the comment found by simulation |
| `Chain.BlockIndex.constructor` | src/chain.h:245-259 | a new block extends the path of its predecessor |
| `Chain.BlockIndex.LineOf` | src/chain.cpp:83-108 | any block of a path has the path up to it as its own |
| `Chain.BlockIndex.GetAncestor` | src/chain.cpp:83-108 | the skip list finds the block of the path at any height, and nothing outside; with all pointers built, in the steps of the search, at most 110 up to height 2^18 |
| `Chain.BlockIndex.BuildSkip` | src/chain.cpp:115-119 | the skip pointer leads to the ancestor at the skip height |
| `Chain.WalkIsLine` | src/chain.cpp:83-108 | the block at a height is what walking that many predecessors back gives |
| `Chain.AncestorValid` | src/chain.cpp:83-119 | the ancestors of a block with right skip pointers have right ones |
| `Chain.LastCommonAncestor` | src/chain.cpp:155-170 | the highest block on both paths, if there is one |
| `Chain.LocatorFalls` | src/chain.cpp:23-49 | the heights of a locator fall strictly from the block to genesis |
| `Chain.LocatorBound` | src/chain.cpp:23-49 | a locator from height h has at most 12 + log2(h) entries |
| `Chain.LocatorExactly` | src/chain.cpp:23-49 | entry k lies k blocks back for k up to 11, and 9 + 2^(k - 10) after that, or is the first block |
| `Chain.LocatorNear` | src/chain.cpp:23-49 | for a common block d back some entry is at most as high and fewer than d blocks further back |
| `Chain.ActiveChain.ContainsIs` | src/chain.h:472-474 | a block is found by its height exactly when it lies on the path to the tip; then all its ancestors do |
| `Chain.ActiveChain.SetTip` | src/chain.cpp:11-21 | stopping early still leaves the exact path from genesis to the new tip |
| `Chain.ActiveChain.FindFork` | src/chain.cpp:51-60 | the last block of the chain on the way back, or none if there is none |
| `Chain.ActiveChain.GetLocator` | src/chain.cpp:23-49 | the hashes of the ancestors at the locator's heights, from the block or the tip |
| `Chain.ActiveChain.Back` | src/chain.cpp:37-43 | the array and the skip list lead to the same ancestor |
| `RollingBloom.WipePair` | src/bloom.cpp:256-263 | the masked wipe clears exactly the tag of the new generation, in all 64 positions of a pair of words |
| `RollingBloom.PositionsAgree` | src/bloom.cpp:268-274 | two hash values share a position exactly if they agree in the lowest six bits and in the pair of words the rest selects |
| `RollingBloom.PositionReached` | src/bloom.cpp:268-274 | every position is that of some hash value |
| `RollingBloom.Filter.constructor` | src/bloom.cpp:216-241 | a new filter has seen no keys, keeps the hash functions, the tweak and the size it is given, and divides the elements into two generations, rounding up |
| `RollingBloom.Filter.Contains` | src/bloom.cpp:284-296 | a key is reported exactly when each of its hash values shares a position with one of the keys of the last three generations; so every key is for at least two generations' worth of further keys |
| `RollingBloom.Filter.TaggedExactly` | src/bloom.cpp:265-296 | a position bears a tag exactly when a key of the last three generations leads there |
| `RollingBloom.Filter.Insert` | src/bloom.cpp:248-276 | after inserting a key the guarantee covers it and still covers the others |
| `RollingBloom.Filter.Store` | src/bloom.cpp:265-275 | a key marks its own positions and no others, so that every tag goes on standing for a key of its generation |
| `RollingBloom.Filter.NextGeneration` | src/bloom.cpp:250-264 | the wiped tags stood for the generation three back, and all others go on standing for theirs |
| `RollingBloom.Filter.Wipe` | src/bloom.cpp:255-263 | every position with the tag is cleared and no other is changed |
| `RollingBloom.Filter.Mark` | src/bloom.cpp:268-275 | all positions of the key bear the current tag, and all others what they bore |
| `RollingBloom.Filter.Reset` | src/bloom.cpp:304-312 | everything is forgotten |
| `Bloom.Filter.constructor` | src/bloom.cpp:21-39 | a new filter, of no bytes too, holds no keys |
| `Bloom.Filter.Received` | src/bloom.h:71-81 | a received filter holds the bytes read, and counts as full until they are looked at |
| `Bloom.Filter.Insert` | src/bloom.cpp:58-69 | no key reported before goes unreported, and the new one is reported; exactly its bits are set, but under the full flag none, and the key is noted as skipped |
| `Bloom.Filter.Contains` | src/bloom.cpp:85-99 | in any state a key is reported exactly by the flags and its bits |
| `Bloom.Filter.UpdateEmptyFull` | src/bloom.cpp:203-214 | the flags are exact, and no key is missed afterwards exactly when the skipped keys happen to be marked and there are hash functions, or nothing was inserted, or there are no bytes, or they are not all zero |
| `Bloom.NoHashFunctions` | src/bloom.cpp:203-214 | a filter without hash functions forgets what was inserted |
| `Bloom.InsertTooEarly` | src/bloom.h:71-81 | a key inserted into a received filter before its flags are computed is found afterwards exactly when the bytes reported it already |
| `Bloom.ReceiveAndInsert` | src/bloom.cpp:58-69 | into a received filter whose flags were computed first, any number of keys go without one being missed |
| `Cuckoo.Scale` | src/cuckoocache.h:243-253 | a scaled hash is a slot of the table |
| `Cuckoo.ScaleExactly` | src/cuckoocache.h:243-253 | a slot is the place of exactly the hashes in its equal share of all 2^32 |
| `Cuckoo.SlotReached` | src/cuckoocache.h:243-253 | every slot is the place of some hash |
| `Cuckoo.LiveOnce` | src/cuckoocache.h:392-440 | no element is alive in two slots |
| `Cuckoo.SwapCarries` | src/cuckoocache.h:430-435 | exchanging the carried element with the one at a live slot loses and doubles nothing |
| `Cuckoo.PlaceCarried` | src/cuckoocache.h:408-415 | placing the carried element in a dead slot completes the insertion without loss |
| `Cuckoo.DropCarried` | src/cuckoocache.h:406-440 | out of depth, exactly the element carried last is lost |
| `Cuckoo.KeepFound` | src/cuckoocache.h:399-405 | an element found again is alive and recent afterwards, and nothing else changes |
| `Cuckoo.ErasedAt` | src/cuckoocache.h:467-477 | marking the slot found dead takes exactly that element out of the live ones |
| `Cuckoo.Locations` | src/cuckoocache.h:243-253 | every element has eight places in the table |
| `Cuckoo.AnyPlaces` | src/cuckoocache.h:243-253 | any eight slots are the places of an element under some hash functions |
| `Cuckoo.ChainInserts` | src/cuckoocache.h:406-440 | a displacement chain of any length loses at most the element carried last, doubles none and keeps all epoch flags |
| `Cuckoo.PlacedInserts` | src/cuckoocache.h:392-440 | so does a whole insertion, whether the element was stored already or not |
| `Cuckoo.RoomMeansNoLoss` | src/cuckoocache.h:408-415 | an element with a dead place is put in without loss |
| `Cuckoo.NextPlaceFollows` | src/cuckoocache.h:416-431 | the place taken is the one after the first that equals the last one, around the end, or the second at the start |
| `Cuckoo.NotBack` | src/cuckoocache.h:416-431 | the element just put in is taken out again exactly when the carried one has that place twice in a row, where the comment says never |
| `Cuckoo.BackAgain` | src/cuckoocache.h:416-431 | as one with all its places the same has |
| `Cuckoo.RouteMoves` | src/cuckoocache.h:406-440 | along a way of displacements to a dead slot, of any length below the limit and passing no slot twice, everyone moves on by one and nobody is lost |
| `Cuckoo.RouteMeansNoLoss` | src/cuckoocache.h:392-440 | an insertion with such a way from the new element loses nothing |
| `Cuckoo.EpochExactly` | src/cuckoocache.h:349-349 | the epoch size is 45% of the slots, and at least one, exactly up to 95443717 slots |
| `Cuckoo.EpochWraps` | src/cuckoocache.h:349-349 | with one slot more the 32-bit product wraps around, and an epoch is a single element |
| `Cuckoo.Cache.constructor` | src/cuckoocache.h:340-353 | a new table has no live element, two slots at least, and the epoch size of its 32-bit product |
| `Cuckoo.Cache.Find` | src/cuckoocache.h:399-405 | the first place that stores the element, or none |
| `Cuckoo.Cache.Contains` | src/cuckoocache.h:467-477 | every live element is found, an element is found exactly where a place stores it, and erasing takes out just that one |
| `Cuckoo.Cache.EraseAndAsk` | src/cuckoocache.h:442-459 | an erased element is still found until something else takes its slot |
| `Cuckoo.Cache.EpochCheck` | src/cuckoocache.h:289-321 | at the end of an epoch the old elements die and the recent ones become old; otherwise nothing changes |
| `Cuckoo.Cache.Age` | src/cuckoocache.h:306-310 | every slot is aged |
| `Cuckoo.Cache.Insert` | src/cuckoocache.h:392-440 | the live elements are those after the epoch check and the new one, less at most one, and none where the new one has a dead place; whoever stays keeps its epoch flag |
| `Cuckoo.Cache.Place` | src/cuckoocache.h:399-440 | in place, the table becomes that of the specified insertion |
| `Cuckoo.Cache.Displace` | src/cuckoocache.h:406-440 | the loop is the specified displacement chain, with the element it drops |
| `Cuckoo.Cache.SwapOut` | src/cuckoocache.h:416-438 | the place after the last one looked at is taken, the second one at the start, and the element there is carried on with its epoch flag |
| `CompactBlocks.PositionsIncrease` | src/blockencodings.h:103-107 | the positions of prefilled transactions strictly increase |
| `CompactBlocks.PlacePrefilled` | src/blockencodings.cpp:58-74 | exactly the well-formed messages are placed, each transaction at its position and nowhere else |
| `CompactBlocks.PlacedCount` | src/blockencodings.cpp:56-74 | as many slots are left free as there are short ids |
| `CompactBlocks.CrammedEndless` | src/blockencodings.cpp:83-84 | with the first 65536 slots filled the 16-bit offset leads to a filled slot for ever, and the scan never ends |
| `CompactBlocks.ScansEnd` | src/blockencodings.cpp:80-85 | for a well-formed message every scan ends exactly when there is no short id or at most 65535 transactions are prefilled |
| `CompactBlocks.NextFree` | src/blockencodings.cpp:83-84 | the scan ends at the next free slot, or passes filled ones for ever |
| `CompactBlocks.MapShortIds` | src/blockencodings.cpp:80-103 | the k-th short id leads to the k-th free slot, as far as 16 bits can say; it fails exactly when two ids collide, and never ends exactly when the first 65536 slots are filled and there is a short id |
| `CompactGather.GatherPool` | src/blockencodings.cpp:105-132 | each slot ends up with the only match found for it, empty after two; the filled ones are counted, and the scan stops early only when every id has its transaction |
| `CompactGather.GatherExtra` | src/blockencodings.cpp:134-163 | the same for the extra transactions on top, with a slot emptied only by a different transaction |
| `CompactGather.GatheredCount` | src/blockencodings.cpp:105-163 | where ids lead to empty slots only, the prefilled ones stay and the count is of the slots filled since |
| `CompactGather.GatheredGenuine` | src/blockencodings.cpp:105-163 | with no false match only transactions of the block are put into its slots |
| `CompactGather.MatchingExactly` | src/blockencodings.cpp:105-163 | nothing is found for a slot exactly if no known transaction leads there, and one exactly if a single one does |
| `CompactGather.SlotExactly` | src/blockencodings.cpp:105-163 | an empty slot ends with the single pool transaction that leads there, or with none the first extra one, exactly if all extra ones that lead there are the same transaction |
| `CompactRelay.Announce` | src/blockencodings.cpp:18-28 | the message holds the coinbase whole and the short ids of the rest |
| `CompactRelay.AnnouncementDescribes` | src/blockencodings.cpp:18-28 | such a message describes the block position by position |
| `CompactRelay.PartiallyDownloadedBlock.InitData` | src/blockencodings.cpp:48-168 | for any message: exactly the malformed ones are invalid, exactly those with short ids and all of the first 65536 positions prefilled never end, and of the others exactly colliding or crowded short ids fail; an accepted one fills its prefilled positions and gathers the rest as specified |
| `CompactRelay.ReceivedCount` | src/blockencodings.cpp:48-168 | up to 65536 transactions the prefilled ones stay and the count is of those found |
| `CompactRelay.ReceivedGenuine` | src/blockencodings.cpp:48-168 | from a true message and with no false match only genuine transactions are in the slots |
| `CompactRelay.PartiallyDownloadedBlock.MissingIndexes` | src/net_processing.cpp:2446-2450 | the request lists exactly the free slots in order, each cut to 16 bits |
| `CompactRelay.Rebuilt` | src/blockencodings.cpp:176-199 | genuine slots and the transactions of the free ones, in order, make the block again |
| `CompactRelay.PartiallyDownloadedBlock.FillBlock` | src/blockencodings.cpp:176-199 | it succeeds exactly when as many transactions are supplied as are missing, and the block is the slots completed with them in order |
| `CompactRequest.WriteIndexes` | src/blockencodings.h:62-67 | the loop writes the differences, modulo 2^64 where the positions do not increase |
| `CompactRequest.ReadIndexes` | src/blockencodings.h:42-61 | it fails exactly when no list of 16-bit positions can come out, and otherwise gives the only one |
| `CompactRequest.DecodesOne` | src/blockencodings.h:55-61 | at most one list comes out, however far the reading got |
| `CompactRequest.RequestRoundTrip` | src/blockencodings.h:38-68 | for a strictly increasing list its differences, and no other numbers, are read as it |
| `CompactRequest.Readable` | src/blockencodings.h:38-68 | of all lists of 16-bit positions exactly the increasing ones can be read again once they are written, and as themselves |
| `CompactRequest.ReadIsRequest` | src/blockencodings.h:55-61 | what is read increases strictly exactly when the numbers received, and their count, add up to at most 65536 |
| `CompactRequest.LastStandsLast` | src/blockencodings.h:55-61 | that is, when position 65535 stands only last |
| `CompactRequest.PassesLast` | src/blockencodings.h:55-61 | the failing input: the numbers 65535 and 0 are read as the positions 65535 and 0 |
| `CompactExchange.Answer` | src/net_processing.cpp:1261-1275 | exactly the requests inside the block are answered, position by position |
| `CompactExchange.Ask` | src/net_processing.cpp:2446-2450 | for any partly downloaded block the request arrives as its free positions cut to 16 bits, exactly when these increase |
| `CompactExchange.Complete` | src/blockencodings.cpp:176-199 | from any slots, request, answer and filling give the slots completed with the block's transactions at the positions as cut |
| `CompactExchange.SendBlock` | src/blockencodings.cpp:18-199 | announcement, request and answer, up to 65536 transactions and with no false matches: the receiver rebuilds exactly the sender's block, unless short ids collide or a bucket is overfull, and then exactly it fails |
| `CompactExchange.LongBlock` | src/blockencodings.cpp:80-85 | in a longer block the short id of transaction 65536 leads to the place of the coinbase |
| `CompactExchange.LongRequest` | src/blockencodings.h:38-68 | there the request can be read exactly when all lower slots are filled and at most 131072 transactions are announced, and then asks for the first positions |
| `CompactExchange.SendLongBlock` | src/blockencodings.cpp:18-199 | whatever the receiver knows, the exchange of a longer block ends exactly then, in a block that repeats the first transactions behind position 65535; it is not the sender's unless transaction 65536 equals the coinbase |
| `CompactExchange.SendToFullPool` | src/blockencodings.cpp:18-199 | with 65537 transactions and all of them known, it goes through and exchanges the first and the last one |
| `Base58.EncodeFits` | src/base58.cpp:84-85 | 138/100 of the length and one is always room enough |
| `Base58.Alphabet` | src/base58.cpp:20-21 | the alphabet ascends, and misses of the letters and digits just 0, I, O and l |
| `Base58.DecodeFits` | src/base58.cpp:36-38 | so is 733/1000 and one for decoding |
| `Base58.OneMeaning` | src/base58.cpp:24-72 | a text stands for at most one byte string |
| `Base58.OneText` | src/base58.cpp:74-112 | a byte string is stood for by at most one text |
| `Base58.Convert` | src/base58.cpp:39-56 | the digits of one base become those of the other with the same value and no leading zeros; the carry assertion holds |
| `Base58.Encode` | src/base58.cpp:74-112 | the text stands for the bytes, leading zeros included |
| `Base58.Decode` | src/base58.cpp:24-72 | it succeeds exactly for a word of the alphabet between spaces, and gives the bytes the word stands for |
| `Base58.DecodeAfterEncode` | src/base58.cpp:24-112 | decoding undoes encoding on all byte strings |
| `Base58.EncodeAfterDecode` | src/base58.cpp:24-112 | encoding undoes decoding on all texts of the alphabet |
| `Base58.EncodeCheck` | src/base58.cpp:124-131 | the text stands for the data with four bytes of its hash behind it |
| `Base58.DecodeCheck` | src/base58.cpp:133-148 | it succeeds exactly for texts that stand for some data with its checksum, and gives that data |
| `Bech32.StepLinear` | src/bech32.cpp:37-94 | one step of the checksum is linear |
| `Bech32.PolyLinear` | src/bech32.cpp:37-94 | so is the whole checksum |
| `Bech32.StepInjective` | src/bech32.cpp:37-94 | a step can be undone, since the generator's lowest coefficient is not zero |
| `Bech32.PolyInjective` | src/bech32.cpp:37-94 | different states stay different under the same values |
| `Bech32.PolyMod` | src/bech32.cpp:37-94 | the loop computes the checksum of any 5-bit values |
| `Bech32.VerifyChecksum` | src/bech32.cpp:118-125 | true exactly when the remainder is one |
| `Bech32.CreateChecksum` | src/bech32.cpp:128-139 | the six values created make any data verify |
| `Bech32Example.CharacterSet` | src/bech32.cpp:15-15 | the characters in the order of their values |
| `Bech32Example.ValidText` | src/test/bech32_tests.cpp:28-29 | the shortest valid text of BIP 173 is accepted, with the part it begins with and no values |
| `Bech32.BurstDetected` | src/bech32.cpp:118-125 | two value lists of one length that differ only within six consecutive places never both verify |
| `Galois.Order` | src/bech32.cpp:46-49 | in the field of 1024 elements, multiplying by the generating element fewer than 1023 times returns to no element but zero |
| `Galois.AllFixed` | src/bech32.cpp:46-49 | and 1023 times to every one |
| `Bech32Zeros.ThreeZeros` | src/bech32.cpp:44-49 | the generator polynomial, with its multiples, is zero at three consecutive powers |
| `Bech32Zeros.StepEval` | src/bech32.cpp:57-92 | a step of the checksum, evaluated at a zero of the generator, multiplies by the zero and adds the value |
| `Bech32Errors.PolyEval` | src/bech32.cpp:37-94 | so the checksum keeps the value of the whole list at each zero |
| `Bech32Errors.ThreePlaces` | src/bech32.cpp:46-49 | values in three places within 1023 that cancel at the three zeros are all zero |
| `Bech32Errors.ErrorsDetected` | src/bech32.cpp:46-49 | lists that differ in up to three places within a window of 1023 have different checksums |
| `Bech32Errors.DecodeTypos` | src/bech32.cpp:159-189 | two texts that decode, with the separator at the same place and up to three differences among the values that enter the checksum, decode to the same |
| `Bech32Errors.FewTypos` | src/bech32.cpp:103-115 | a wrong character behind the separator is one such difference, one in front of it two at most, and a letter for a letter one |
| `Bech32.Encode` | src/bech32.cpp:147-156 | the text is the part, a one, and the characters of the values with a checksum that verifies |
| `Bech32.Decode` | src/bech32.cpp:159-189 | exactly the well-formed texts are accepted, and give the lower-case part and the values without their checksum |
| `Bech32.DecodeAfterEncode` | src/bech32.cpp:147-189 | decoding undoes encoding exactly for a non-empty printable part without capitals and no more than ninety characters in all |

## Left out

- Choosing an address to connect to (`Select_`, `GetChance`): it ends only with probability one and uses floating point.
- Addresses, keys and scripts behind the text encodings (`EncodeDestination`, `DecodeDestination`, secrets): they need code that is not part of this model.
- AddrManModel.BucketPosition: only its range is stated; the hash behind it is a parameter.
- AddrManStream.Unserialize: the stream of bytes is not modelled; entries beyond a count are taken to be absent, where the source would read them as what follows.
- AddrManUpgrade.OtherFormat: the number of new entries is not negative; a negative one is the subject of `NegativeCount`.
- The lock around each call of the address manager: calls are one after the other.
- Boost interruption points and thread creation around the check queue: they add no protocol step.
- CCheckQueueControl: its destructor's Wait and the mutex that makes the master unique are taken as the assumption of a single master.
- CheckQueue.Shared.CriticalSection: condition variables are the waiting and notified states of the threads; spurious wake-ups are steps like any other.
- Coins.CoinsViewCache.constructor: the base view is held by value, so two caches on one base are not represented.
- Memory accounting of the coins cache (`cachedCoinsUsage`, `DynamicMemoryUsage`) and the batches of the database: statistics and storage below the plain map.
- PartialMerkleTree.PartialTree.constructor: a block has at least one transaction; an empty list is read out of bounds in the source.
- CMerkleBlock's choice of the matched transactions: it would only add a loop over a filter.
- MerkleRoot.MerkleComputation: the branch is always collected, where the source skips it for a null pointer; above 2^31 leaves, where the source shifts by 32 bits and reads past its array, the outcome is only marked as undefined.
- Hexadecimal texts, doubles and bitwise operators of the 256-bit numbers: easy members.
- GetBlockProofEquivalentTime, FindEarliestAtLeast, CDiskBlockIndex and median times: easy or built on unmodelled block data.
- Chain.ActiveChain.SetTip: heights are unbounded; the source's are 32-bit.
- Sizing of Bloom filters and of the cuckoo table from error rates and bytes: floating point; the sizes are parameters.
- Bloom.Filter.constructor: hash functions only with at least one byte, as the source's sizing gives none to an empty filter.
- IsRelevantAndUpdate and script matching of the Bloom filter: they need script code that is not part of this model.
- RollingBloom.Filter.constructor: at least one element and one pair of words; with none the source has a table of no words and divides by its size.
- RollingBloom.Filter.Contains: the rate of false reports is not bounded; what is stated is which keys a report comes from.
- Cuckoo.Cache.Contains: the packed atomic flags are booleans; concurrent erasure while another thread reads is not modelled.
- CompactRelay.PartiallyDownloadedBlock.InitData: whether a bucket of the hash table is overfull is a parameter, since it depends on the library's table.
- CompactRelay.PartiallyDownloadedBlock.FillBlock: the final check of the block's contents is not modelled, nor is the statistic of extra transactions.
- CompactExchange.SendBlock: at most 65536 transactions and no false matches; `SendLongBlock` shows why the first is needed. An overfull bucket is a parameter.
- The detection of four errors within 89 characters by the Bech32 checksum: a property of this one polynomial, known by exhaustive search.
- Base58.Decode: texts hold no NUL character, as the strings of the source end at one.
- Base58.EncodeCheck: the double hash is a parameter of at least four bytes.
- Wallet, consensus rules, networking, RPC, scripts and the virtual machine: other subjects.
