# Verified models of the node's core data structures

This project models, in Dafny, the parts of the node where a mistake would be silent: the
address manager, the coin cache, the parallel check queue, the block assembler, partial
Merkle trees, 256-bit arithmetic and block work, the block index, the cuckoo cache, the
rolling Bloom filter, and the Base58 and Bech32 codecs. Each model keeps the branches, the
constants and the error cases of the code. Objects that the code updates in place are
classes here, loops are loops, and each method is proved against a specification function
or a property stated outright.

How the files fit together:

| files | part of the node |
|---|---|
| AddrTables, AddrOps, AddrEffects, AddrManager | the address manager: its tables as values, its operations and whole runs of them, what each does in plain terms, the object itself |
| AddrCheck | the consistency check the code ships for debugging |
| AddrStore, AddrSaves, AddrRebuckets, AddrFiles | saving the address manager and reading it back, with or without its former buckets |
| Coins, CoinsViews | the stack of coin caches over a database, as a value and as linked objects |
| CheckQueue | the check queue as a state machine over its critical sections |
| Mempools, ModifiedTotals, FeeRates, Miner | package selection for a block template: the pool, lazily kept ancestor totals, the order by fee rate, the assembler |
| MerkleTrees, MerkleBlocks, MerkleClaims, MerkleRoots | partial Merkle trees, what a receiver may believe, and the root of a block |
| Limbs, LimbOps, LimbShifts, LimbBits, Arith, Compact | multi-limb arithmetic, the compact form of targets, block work |
| SkipHeights, Chains | skip pointers and how far they carry, the active chain, locators |
| CuckooTables, CuckooCopies, CuckooEpochs, CuckooCaches | the signature cache |
| BloomGenerations, BloomFilters | the rolling Bloom filter |
| Radix, PowerBounds, Base58Codec, Base58Strings, Base58Conversion | Base58 |
| BitXor, Bech32Checksums, Bech32Fields, Bech32Pairs, Bech32, Bech32Published | Bech32 (section "Bech32" of BIP 173): remainders, their multiples, two changed symbols, the codec, a published string |
| Basics, Powers, ByteBits | what several of them share |

Hashes, clocks, random draws and transaction identifiers are parameters, so every result
holds for all of them. `dafny verify dfyconfig.toml` covers the whole project.

## Findings

Eight things the documentation or the surrounding code suggests do not hold of the code as
it is. Each has a lemma with a concrete input and a lemma with the exact condition.

- The bound of 2N-1 flag bits for N hashes (src/merkleblock.h:47) fails when an ancestor of
  a match has a single child: `MerkleTrees.FlagBitsCounterexample`. It holds exactly when
  every ancestor of every match has two children: `MerkleTrees.FlagBitsIff`.
- `AddCoin` marks an entry FRESH although the parent has the coin when it is called without
  `possible_overwrite` for a coin that only the parent has (src/coins.cpp:68-87):
  `Coins.FlagsCounterexample`, with the exact condition in `Coins.AddCoinKeepsFlagsIff`.
- `AddCoin` leaves the memory account short when it throws over a coin that owns heap memory
  (src/coins.cpp:76-82): `Coins.AccountCounterexample`, with the exact condition in
  `Coins.AddCoinAccountIff`.
- The fee total of a listed entry is not that of what is missing from the block: listing it
  subtracts the modified fee of a parent, updating it the base fee (src/miner.cpp:251,
  src/miner.h:117). `ModifiedTotals.FeesCounterexample` has two prioritised parents. The total
  is right, whichever parent came first, exactly when at most one ancestor is in the block or
  none of those that are was prioritised: `ModifiedTotals.FeesExactIff`.
- A stream that repeats an address is read without an error, and pruning one copy forgets the
  address of the other (src/addrman.h:407-494): `AddrStore.RepeatCounterexample`. What is read
  is consistent exactly when no address that stands twice has found a place:
  `AddrStore.LoadedIff`.
- What is decoded from a partial tree with the true root is not always true of the block: a
  claimed count that makes the tree lower lets an inner node pass for a transaction
  (src/merkleblock.cpp:131-162). `MerkleClaims.ClaimTooLow` builds the message, and
  `MerkleClaims.BelievableIff` has the exact condition: the claimed count does not make the tree
  lower than it is.
- The comment on displacement in the cuckoo cache says that the element just put in is never
  moved, and that a new element takes over its first slot (src/cuckoocache.h:416-428). Neither
  holds: `CuckooTables.MovesOnCounterexample`. A displaced element moves on to another slot exactly
  if the next of its slots is not the same one again, `CuckooTables.MovesOnIff`, and a new one
  takes over its second slot, `CuckooTables.NextWayIs`.
- A table of the cuckoo cache that was just set up contains the blank element
  (src/cuckoocache.h:339-352, 469-479): `CuckooCopies.BlankIsFound`. Every other element, and
  no other than those, is found only after it was inserted: `CuckooCopies.FoundIff`.

The consistency check of the address manager is exact for what it looks at, and
`AddrCheck.VisibleIff` names the three things it does not look at.

## Model

| member | source | states |
|---|---|---|
| `AddrOps.Run` | src/addrman.cpp:87-625 | every sequence of Add_, Good_, Attempt_, Connected_, SetServices_, single shuffles of GetAddr_ and single rounds of collision handling, under arbitrary hashes, times and random draws, keeps the whole structure consistent, never gives an id a new address or reuses one, and never empties a tried slot |
| `AddrOps.Apply` | src/addrman.cpp:87-625 | the same for one operation |
| `AddrTables.SwapOk` | src/addrman.cpp:99-117 | swapping two positions of vRandom keeps the invariant |
| `AddrTables.DeleteOk` | src/addrman.cpp:119-131 | the assertions of Delete hold for an unreferenced new entry, and deleting it keeps the invariant |
| `AddrTables.ClearNewOk` | src/addrman.cpp:133-146 | the assertion of ClearNew holds at every new cell, and clearing keeps the invariant |
| `AddrTables.ClearNewShape` | src/addrman.cpp:133-146 | clearing a cell takes one reference from its occupant, forgets the occupant exactly when that was the last one, and touches nobody else |
| `AddrTables.LeaveNewOk` | src/addrman.cpp:150-161 | taking an address out of all its new cells keeps the invariant, with that address left without a cell |
| `AddrTables.DemoteOk` | src/addrman.cpp:167-180 | the occupant of a tried slot becomes a new address without a cell |
| `AddrTables.PromoteOk` | src/addrman.cpp:189-193 | an address without a cell moves to its free tried slot |
| `AddrOps.EvictOk` | src/addrman.cpp:167-187 | making room in a tried slot meets every assertion and keeps the invariant |
| `AddrOps.MakeTriedOk` | src/addrman.cpp:148-194 | moving a new address to the tried table meets every assertion and keeps the invariant |
| `AddrOps.MakeTriedMoves` | src/addrman.cpp:148-194 | afterwards the slot holds the address, the evicted one is new, the tried set changed by just these two, and at most one address was forgotten |
| `AddrOps.GoodDoes` | src/addrman.cpp:196-260 | Good_ moves the address as above, or else leaves both tables alone and at most notes one more pending collision, below its limit of ten |
| `AddrOps.GoodKeeps` | src/addrman.cpp:196-260 | Good_ keeps the structure consistent, pending collisions included |
| `AddrOps.PlaceOk` | src/addrman.cpp:306-330 | giving an address one more new cell, or forgetting it, keeps the invariant |
| `AddrOps.AddDoes` | src/addrman.cpp:262-333 | Add_ never touches the tried table, forgets at most one address, never a tried one, and makes at most the given address known |
| `AddrOps.AddPlaces` | src/addrman.cpp:262-333 | an unknown routable address is in the cell its source gives it, with one reference, exactly when that cell is free or its occupant is terrible or has another cell; otherwise the new table is unchanged |
| `AddrOps.AddKeeps` | src/addrman.cpp:262-333 | Add_ keeps the structure consistent, pending collisions included |
| `AddrOps.StatisticsKeep` | src/addrman.cpp:335-355 | Attempt_, Connected_ and SetServices_ keep the structure consistent |
| `AddrOps.SwapKeeps` | src/addrman.cpp:99-117 | a shuffle keeps the structure consistent, pending collisions included |
| `AddrOps.ResolveKeeps` | src/addrman.cpp:541-598 | a round of ResolveCollisions_ keeps the structure consistent |
| `AddrOps.ReplaceTakesEffect` | src/addrman.cpp:541-598 | a collision decided in favour of the waiting address ends with it in the tried table and no longer pending |
| `AddrOps.ResolvesAll` | src/addrman.cpp:541-598 | an id still pending after all rounds is one whose own round decided to leave it pending |
| `AddrOps.CollisionSlotOccupied` | src/addrman.cpp:600-625 | the slot of a pending address that is still known always holds a tried address of that slot |
| `AddrManager.AddrMan.constructor` | src/addrman.h:502-529 | a new manager is empty and consistent |
| `AddrManager.AddrMan.SwapRandom` | src/addrman.cpp:99-117 | the in-place swap is the specified one |
| `AddrManager.AddrMan.Delete` | src/addrman.cpp:119-131 | the in-place deletion is the specified one |
| `AddrManager.AddrMan.ClearNew` | src/addrman.cpp:133-146 | the in-place clearing is the specified one |
| `AddrManager.AddrMan.LeaveNewTable` | src/addrman.cpp:150-161 | the loop over all buckets removes every cell of the address and ends with reference count zero |
| `AddrManager.AddrMan.Evict` | src/addrman.cpp:167-187 | the in-place eviction is the specified one |
| `AddrManager.AddrMan.MakeTried` | src/addrman.cpp:148-194 | the in-place move is the specified one |
| `AddrManager.AddrMan.FindBucket` | src/addrman.cpp:225-235 | the wrapped scan finds a bucket that holds the address if any does |
| `AddrManager.NewHasBucket` | src/addrman.cpp:225-240 | a new address always has one, so the scan never fails |
| `AddrManager.AddrMan.Good_` | src/addrman.cpp:196-260 | keeps the object valid, computes Good, and where it moves the address empties exactly its new cells, gives the evicted address the one cell of its own source and leaves every other cell as it was |
| `AddrManager.AddrMan.Add_` | src/addrman.cpp:262-333 | keeps the object valid, computes Add with the effects of the next rows, and returns true exactly for a routable address unknown before |
| `AddrManager.AddrMan.Attempt_` | src/addrman.cpp:335-355 | keeps the object valid and updates just the attempt statistics of a known address, counting a failure only if none was counted since the last success of anybody |
| `AddrManager.AddrMan.Connected_` | src/addrman.cpp:503-521 | keeps the object valid and refreshes just the time of a known address, if it is older than twenty minutes |
| `AddrManager.AddrMan.SetServices_` | src/addrman.cpp:523-539 | keeps the object valid and sets just the services of a known address |
| `AddrManager.AddrMan.ResolveCollisions_` | src/addrman.cpp:541-598 | gives every pending id exactly one round; a valid waiting address gets its slot exactly in the three cases of AddrEffects.ResolveDoes, and the whole is a run of such rounds |
| `AddrOps.TraceRuns` | src/addrman.cpp:541-598 | rounds one after another are a run of operations |
| `AddrManager.AddrMan.SelectTriedCollision_` | src/addrman.cpp:600-625 | returns the entry of the tried address in the slot that the pending address waits for; drops a pending id that is no longer known |
| `AddrManager.AddrMan.GetAddr_` | src/addrman.cpp:482-501 | returns distinct known addresses, all of them healthy, as many as 23 percent of all but at most 2500, or else every healthy address; it is a run of shuffles, and all it changes is the order of vRandom |
| `AddrOps.ShufflesReorder` | src/addrman.cpp:482-501 | a run of shuffles keeps every entry, both tables and all counters |
| `AddrOps.RunNext` | src/addrman.cpp:87-625 | a run with one more operation is that operation after the run |
| `AddrEffects.TerribleIff` | src/addrman.cpp:39-57 | an address is healthy, and shared, exactly if it was tried within the last minute, or else was seen within thirty days and not more than ten minutes ahead of the clock and has not failed three times without any success or ten times in a week without one |
| `AddrEffects.ResolveDoes` | src/addrman.cpp:541-598 | a round gives a valid waiting address its slot exactly when the slot is empty, or its occupant has had no success for four hours and was either tried more than a minute but less than four hours ago, or not for four hours while the waiting one has waited over forty minutes; otherwise the tried table stays as it is |
| `AddrEffects.WorkingStays` | src/addrman.cpp:564-567 | an occupant that had a success within four hours keeps its slot, and the collision is dropped |
| `AddrEffects.TraceDoes` | src/addrman.cpp:541-598 | so does every round of a run of them |
| `AddrEffects.AttemptsCountOnce` | src/addrman.cpp:335-355 | however often an address is tried, the failures between two successes of anybody count once |
| `AddrEffects.ConnectedSeen` | src/addrman.cpp:503-521 | the time an address was last seen moves on only after more than twenty minutes |
| `AddrEffects.AddKnown` | src/addrman.cpp:271-304 | announcing a known address adds its services and renews its time if that is older by an hour, or a day for an old announcement, plus the penalty; it gets one more cell exactly if the announcement is news, it is not tried, has fewer than eight cells, the draw is a multiple of two to their number, and the cell is not its own and open |
| `AddrEffects.AddUnknown` | src/addrman.cpp:305-330 | an unknown address takes the cell of its source with the data announced, less the penalty, or is not kept |
| `AddrEffects.AddAnnounces` | src/addrman.cpp:262-333 | Add_ does one of these, and nothing for an address that is not routable |
| `AddrEffects.GoodCells` | src/addrman.cpp:148-194 | a move to the tried table empties every new cell of the address, gives the evicted one the cell of its source, and touches no other cell |
| `AddrCheck.Check` | src/addrman.cpp:405-479 | returns zero exactly when everything it looks at is right, in both directions |
| `AddrCheck.VisibleIff` | src/addrman.cpp:405-479 | a state is consistent exactly when everything Check_ looks at is right and so are the three things it does not look at: id bounds, mapAddr against mapInfo, pending collisions |
| `AddrCheck.EveryPosition` | src/addrman.cpp:409-410 | positions recorded for as many ids as there are positions cover all of them, so checking one direction of the index suffices |
| `AddrCheck.CheckEntries` | src/addrman.cpp:412-436 | passes exactly when every entry is right by itself, and collects the tried ids and the reference counts |
| `AddrCheck.CheckTried` | src/addrman.cpp:443-455 | passes exactly when every occupied tried cell is the slot of its tried occupant |
| `AddrCheck.CheckNew` | src/addrman.cpp:457-469 | fails only if some new cell is misplaced or some address has more cells than references |
| `AddrCheck.TriedEnd` | src/addrman.cpp:471-472 | nothing is left over exactly when every tried address was met in its slot |
| `AddrCheck.NewEnd` | src/addrman.cpp:473-474 | nothing is left over exactly when every reference count equals the number of cells |
| `AddrStore.EnterOk` | src/addrman.h:407-414 | an entry that is read becomes a new address without a cell, and mapAddr knows the last entry of every address |
| `AddrStore.EnterTriedOk` | src/addrman.h:417-434 | a tried entry is entered into its slot if that is free and lost otherwise; either keeps the invariant |
| `AddrStore.SettleOk` | src/addrman.h:462-482 | giving an entry its former cell or the one of its source keeps the invariant |
| `AddrStore.PruneOk` | src/addrman.h:484-494 | deleting an entry left without a cell keeps the invariant |
| `AddrStore.LoadedIff` | src/addrman.h:380-500 | whatever stream is read, everything but mapAddr is consistent, and mapAddr is exactly when no address that stands twice has found a place |
| `AddrStore.LoadedConsistent` | src/addrman.h:380-500 | in particular, any stream with distinct addresses, whatever its version, bucket lists and asmap, gives a consistent manager |
| `AddrStore.RepeatCounterexample` | src/addrman.h:407-494 | a stream that lists the same new address twice gives an inconsistent one, for every key and every address |
| `AddrStore.AddrOkIff` | src/addrman.h:484-494 | pruning forgets an address with each of its copies, so mapAddr ends up right exactly when no repeated address has a copy with a place |
| `AddrSaves.ListingAt` | src/addrman.h:336-347 | the place mapUnkIds gives an id is its place in the list of new entries |
| `AddrSaves.CountsWritten` | src/addrman.h:330-358 | the counters written are the lengths of the lists, so the assertions on them hold |
| `AddrSaves.CountsFit` | src/addrman.h:399-405 | the limits on both counts are met, since entries have distinct cells |
| `AddrSaves.FormerCell` | src/addrman.h:439-466 | the last bucket that lists an entry held it, at its own position |
| `AddrSaves.FormerCellsDiffer` | src/addrman.h:462-471 | no two entries are put into the same cell |
| `AddrSaves.FormerSlotsDiffer` | src/addrman.h:417-434 | no two tried entries want the same slot |
| `AddrRebuckets.NewRebucketed` | src/addrman.h:462-482 | where the former buckets cannot be used, every new cell goes to the first new entry of the stream for which it is the cell of its source, and no other cell is filled |
| `AddrRebuckets.TriedRebuilt` | src/addrman.h:417-436 | whatever stream is read, every tried slot goes to the first tried entry of the stream that wants it |
| `AddrSaves.SaveThenLoad` | src/addrman.h:323-500 | saving a consistent manager and reading it into an empty one with the same key and asmap meets every condition the reader enforces and loses nothing: the same addresses in the same tables with the same port, services, time, source, last success and attempts, the same address in every tried slot, every new address in exactly one cell and that one of its former cells, equal counters, and a consistent result |
| `AddrFiles.WriteNews` | src/addrman.h:336-347 | writes the new entries in id order and records their places; the assertion on the count holds at each |
| `AddrFiles.WriteTrieds` | src/addrman.h:348-356 | writes the tried entries in id order; the assertion on the count holds at each |
| `AddrFiles.WriteBuckets` | src/addrman.h:357-369 | writes for each bucket the places of its occupants in order |
| `AddrFiles.Serialize` | src/addrman.h:323-377 | writes the specified stream, with lists as long as the counters |
| `AddrFiles.ReadNews` | src/addrman.h:407-415 | reads the new entries as specified |
| `AddrFiles.ReadTrieds` | src/addrman.h:417-436 | reads the tried entries as specified and subtracts the lost ones |
| `AddrFiles.ReadBuckets` | src/addrman.h:438-451 | gives each entry the last bucket that lists it |
| `AddrFiles.SettleAll` | src/addrman.h:462-482 | places all entries as specified |
| `AddrFiles.PruneAll` | src/addrman.h:484-494 | deletes exactly the entries left without a cell |
| `AddrFiles.Unserialize` | src/addrman.h:380-500 | fails exactly on a key size other than 32 or a count over its limit; otherwise builds the specified manager, valid exactly when no address that stands twice in the stream has found a place, with each tried slot and, if version, bucket count or asmap differ, each new cell given to the first entry that wants it |
| `AddrFiles.SaveAndLoad` | src/addrman.h:323-500 | saving an object and reading it back gives a valid object that restores it |
| `Coins.FetchOk` | src/coins.cpp:42-66 | reading a coin through any number of caches changes no level's UTXO set and finds exactly what is visible |
| `Coins.AddCoinOk` | src/coins.cpp:68-87 | adding a coin where none is visible, or with an announced overwrite, does not throw, keeps every flag true and changes just the top UTXO set by that coin |
| `Coins.AddCoinKeepsFlagsIff` | src/coins.cpp:68-87 | the flags stay true exactly unless a spendable coin is added, without announcing an overwrite, over a coin that only the parent has |
| `Coins.FlagsCounterexample` | src/coins.cpp:68-87 | an input on which they do not |
| `Coins.AddCoinAccountIff` | src/coins.cpp:68-87 | the memory account stays exact unless a spendable coin is added, without announcing an overwrite, over an unspent cached coin that owns heap memory |
| `Coins.AccountCounterexample` | src/coins.cpp:68-87 | an input on which it does not |
| `Coins.SpendFinds` | src/coins.cpp:100-114 | spending finds a visible coin, or an entry spent earlier in this cache |
| `Coins.SpendCoinOk` | src/coins.cpp:100-114 | spending removes just that coin from the top UTXO set and keeps every flag true |
| `Coins.AddThenSpend` | src/coins.cpp:68-114 | a coin added to a cache and spent there leaves no trace in it, since what the parent does not know is forgotten when it is spent |
| `Coins.UncacheOk` | src/coins.cpp:212-219 | dropping a clean entry changes no UTXO set, and what is left at that place is dirty |
| `Coins.MergeOk` | src/coins.cpp:147-203 | merging a child entry into the parent is never misapplied, shows what the child showed and keeps the flags true against the grandparent |
| `Coins.BatchWriteOk` | src/coins.cpp:147-203 | writing a child's entries never reaches the error, makes the parent show what the child showed, re-establishes its flags and leaves deeper levels alone |
| `Coins.FlushOk` | src/coins.cpp:205-210 | flushing keeps the visible UTXO set, gives the parent the same one, leaves deeper levels alone, and never reaches the error |
| `Coins.FetchAtOk` | src/coins.cpp:42-66 | the same for reads made at any level below |
| `Coins.UncacheAtOk` | src/coins.cpp:212-219 | the same for dropping entries at any level below |
| `Coins.FlushAtOk` | src/coins.cpp:205-210 | the same for flushing any level below |
| `Coins.StepRefines` | src/coins.cpp:42-219 | every operation on a stack of caches shows at every level what the same operation does to a stack of plain maps |
| `Coins.RunRefines` | src/coins.cpp:42-219 | so does every run, on stacks growing and shrinking to any depth: flags are never observable |
| `Coins.NeverVisible` | src/coins.cpp:68-70 | whatever a run adds, an output whose script starts with the byte 0x6a or has over 10000 bytes never becomes visible at any level |
| `CoinsViews.CoinsView.OpenDatabase` | src/coins.h:225-260 | a database shows its own coins |
| `CoinsViews.CoinsView.OnTopOf` | src/coins.cpp:36-40 | a new cache shows what its parent shows |
| `CoinsViews.CoinsView.GetCoin` | src/coins.cpp:59-66 | finds exactly the visible coins and changes no UTXO set |
| `CoinsViews.CoinsView.FetchCoin` | src/coins.cpp:42-57 | fills the caches as specified |
| `CoinsViews.CoinsView.HaveCoin` | src/coins.cpp:127-130 | true exactly for visible coins |
| `CoinsViews.CoinsView.AccessCoin` | src/coins.cpp:118-125 | the visible coin, or a pruned one |
| `CoinsViews.CoinsView.AddCoin` | src/coins.cpp:68-87 | the specified state and result, throwing included |
| `CoinsViews.CoinsView.SpendCoin` | src/coins.cpp:100-114 | the specified state; returns the visible coin |
| `CoinsViews.CoinsView.Uncache` | src/coins.cpp:212-219 | drops only clean entries, changing no UTXO set |
| `CoinsViews.CoinsView.WriteEntry` | src/coins.cpp:149-199 | one child entry merged as specified, the account kept exact, or the error |
| `CoinsViews.CoinsView.BatchWriteCache` | src/coins.cpp:147-203 | in whatever order entries come, the error is raised exactly when some FRESH flag was misapplied; otherwise the result is the specified merge |
| `CoinsViews.CoinsView.BatchWriteDatabase` | src/txdb.cpp:116-127 | dirty entries replace or erase the coins of the database |
| `CoinsViews.CoinsView.BatchWrite` | src/coins.cpp:147-203 | either of the two, by level |
| `CoinsViews.CoinsView.Flush` | src/coins.cpp:205-210 | never throws; this view keeps its UTXO set and the parent gets the same, and the cache is empty |
| `CoinsViews.AddCoins` | src/coins.cpp:89-98 | the top UTXO set gains exactly the outputs whose script does not start with the byte 0x6a and has at most 10000 bytes, and nothing else changes |
| `CheckQueue.RunInv` | src/checkqueue.h:66-157 | in every interleaving of the master and any number of workers, nTodo is the queued checks plus those in claimed batches, nIdle counts exactly the waiting threads, and every added check is queued, held or claimed exactly once |
| `CheckQueue.WaitReturnsConjunction` | src/checkqueue.h:66-142 | Wait returns true exactly when every check added since the previous Wait is true, and by then each was claimed exactly once |
| `CheckQueue.MasterNeverStranded` | src/checkqueue.h:73-122 | whenever the master sleeps without having been notified, some worker holds a non-empty batch |
| `CheckQueue.ClaimSize` | src/checkqueue.h:101-115 | a claimed batch has at least one and at most all queued checks |
| `CheckQueue.ClaimShare` | src/checkqueue.h:101-106 | beyond one it is the largest within the batch size that leaves as much to every other thread |
| `CheckQueue.InternalDecreases` | src/checkqueue.h:66-123 | every step of a thread inside Loop decreases the work left |
| `CheckQueue.WaitProgress` | src/checkqueue.h:66-123 | while the master is inside Wait some thread can move without a spurious wake-up |
| `CheckQueue.InternalRunBounded` | src/checkqueue.h:66-123 | threads alone make at most as many steps as there is work left |
| `CheckQueue.WaitReturns` | src/checkqueue.h:66-142 | when threads have moved as long as they can, which is bounded, the master is outside Wait |
| `Miner.BlockAssembler.AddPackageTxs` | src/miner.cpp:298-425 | terminates on every mempool graph; the selection stays duplicate-free, ancestor-closed and in order, within the weight and signature limits; when candidates run out every transaction left out has a package that does not fit or may not enter; it gives up only with the block nearly full and more than a thousand transactions since it last grew that are too large for it; it stops for the minimum fee only at a candidate whose totals in force pay less, when everything else was added, rejected or is no better by ancestor fee rate |
| `Miner.BlockAssembler.SelectPackages` | src/miner.cpp:310-424 | the selection loop with its invariant at the head, and the same ends |
| `Miner.BlockAssembler.Step` | src/miner.cpp:319-424 | one turn keeps that invariant and makes progress, or stops for one of the two reasons |
| `Miner.BlockAssembler.Consider` | src/miner.cpp:327-424 | the best candidate there is: stopped at as too cheap, dropped or added |
| `Miner.BlockAssembler.Choose` | src/miner.cpp:327-353 | the better of the best modified entry and the next of the index, so that everything still to be considered pays no more, alone or with what it brings along |
| `Miner.BlockAssembler.Attempt` | src/miner.cpp:371-424 | counts the candidates that do not fit since the block last grew, each once |
| `Miner.BlockAssembler.TryCandidate` | src/miner.cpp:371-424 | a candidate that does not fit, or brings along what may not enter, leaves the block as it is and is dropped; any other is added with exactly what it misses |
| `Miner.BlockAssembler.TestPackageTransactions` | src/miner.cpp:205-214 | true exactly when every transaction is final and free of a witness where none is allowed |
| `Miner.BlockAssembler.OnlyUnconfirmed` | src/miner.cpp:178-189 | leaves exactly the transactions not yet in the block |
| `Miner.BlockAssembler.AddToBlock` | src/miner.cpp:216-233 | appends the transaction and adds up weight, signature cost and fees |
| `Miner.BlockAssembler.UpdatePackagesForAdded` | src/miner.cpp:235-260 | exactly the descendants of what was added are listed, with size and signature cost less by exactly their added ancestors, and fees less by the modified fee of the first of them and the base fees of the rest |
| `Miner.BlockAssembler.ListOrUpdate` | src/miner.cpp:247-256 | an entry is listed less the modified fee of its parent, a listed one loses the base fee |
| `Miner.BlockAssembler.SortForBlock` | src/miner.cpp:277-286 | a permutation of the package by ancestor count, ties by hash |
| `Miner.BlockAssembler.ResetBlock` | src/miner.cpp:74-86 | an empty selection with the reserved weight and signature cost |
| `Miner.BlockAssembler.constructor` | src/miner.cpp:47-54 | the weight limit is clamped to its range |
| `Miner.OrderedClosed` | src/miner.cpp:298-425 | a selection in order contains the ancestors of everything in it |
| `Miner.SortedFollows` | src/miner.cpp:277-286 | in a package sorted by ancestor count every ancestor comes earlier or is in the block already |
| `Miner.FillSound` | src/miner.cpp:410-418 | adding it one by one keeps the selection in order at each step |
| `ModifiedTotals.UpdatedBounds` | src/miner.cpp:235-260 | modified totals stay between what is missing and the whole package |
| `ModifiedTotals.TrackedAdd` | src/miner.cpp:235-260 | of the transactions outside the block that have not failed, exactly those with an ancestor in it are listed, less by exactly these ancestors |
| `ModifiedTotals.TotalsExact` | src/miner.cpp:355-364 | so the size and signature cost that the assembler goes by are exactly those of what is missing, and the fees are off by what the operator added to the ancestors in the block other than the first |
| `ModifiedTotals.FeesCounterexample` | src/miner.h:111-122 | with two parents in the block, both prioritised by ten, a child that pays nothing passes for paying ten |
| `ModifiedTotals.FamilyExists` | src/miner.h:111-122 | there is such a pool, for any three transactions |
| `ModifiedTotals.FeesExactIff` | src/miner.h:111-122 | the fees are right, whichever ancestor came first, exactly when at most one ancestor is in the block or none of those that are was prioritised |
| `FeeRates.NotAboveTrans` | src/txmempool.h:359-397 | comparing fee rates by cross-multiplication is transitive |
| `FeeRates.BetterTrans` | src/txmempool.h:359-397 | so is the order by the smaller of own and ancestor fee rate, ties by hash |
| `FeeRates.BetterOne` | src/txmempool.h:359-397 | and of two transactions exactly one comes first |
| `FeeRates.NoFasterIff` | src/txmempool.h:359-397 | one transaction ranks no higher than another exactly if, alone or with what it brings along, it pays no more than the other does either way |
| `FeeRates.BetterIff` | src/txmempool.h:359-397 | the order, stated by such products alone |
| `FeeRates.ChooseModified` | src/miner.cpp:334-346 | a modified entry preferred to the next of the index is best of all that is left |
| `FeeRates.ChooseIndexed` | src/miner.cpp:339-352 | so is the next of the index where no modified entry is preferred |
| `Miner.EndsHere` | src/miner.cpp:366-369 | below the minimum fee, everything else was added, rejected or is no better |
| `Miner.MisfitsDrop` | src/miner.cpp:371-387 | a candidate that fails the size test is counted once |
| `Miner.PackageFits` | src/miner.cpp:191-199 | a package that meets the size conditions keeps the block within both limits |
| `Miner.FailedIsRejected` | src/miner.cpp:371-405 | a failed candidate has a package that does not fit or may not enter |
| `Miner.NoneLeft` | src/miner.cpp:319-424 | with no candidates left every transaction is in or rejected |
| `Mempools.CountGrows` | src/miner.h:80-90 | an ancestor has fewer ancestors, so the comparison by count sorts topologically |
| `Mempools.WeightBySize` | src/miner.cpp:191-199 | a set weighs at most four times its virtual size |
| `MerkleTrees.ExtractBuild` | src/merkleblock.cpp:59-113 | decoding what was encoded for any node returns its hash, consumes exactly its bits and hashes, and reports exactly the matched transactions |
| `MerkleTrees.ExtractSound` | src/merkleblock.cpp:77-113 | whatever bits and hashes were sent, a traversal that ends in the true hash reports only true transactions at their positions, in increasing order |
| `MerkleTrees.SubtreesDiffer` | src/merkleblock.cpp:103-107 | subtrees over distinct transactions never share a hash, so the duplicate rejection never hits an honest block |
| `MerkleTrees.HashBounds` | src/merkleblock.h:36-40 | stored hashes of a node are at most the transactions below it, and at most one plus one per match and level |
| `MerkleTrees.BitCount` | src/merkleblock.h:47-48 | flag bits are twice the hashes less one, plus one for every single-child ancestor of a match |
| `MerkleTrees.FlagBitsCounterexample` | src/merkleblock.h:47-48 | the documented bound of 2N-1 flag bits fails on three transactions with the last one matched |
| `MerkleTrees.FlagBitsIff` | src/merkleblock.h:47-48 | it holds exactly when every ancestor of every match has two children |
| `MerkleBlocks.WidthIff` | src/merkleblock.h:66-68 | the width formula counts exactly the positions that exist |
| `MerkleBlocks.RightIff` | src/merkleblock.cpp:45-50 | the position comparison finds exactly the nodes with a right child |
| `MerkleBlocks.PacksWeighs` | src/merkleblock.h:88-105 | eight flags make a byte, the first weighing one and the last 128; both Write and Read ensure it |
| `MerkleBlocks.UnpackPack` | src/merkleblock.h:88-105 | packing flag bits to bytes and back only pads |
| `MerkleBlocks.VerdictOfEncode` | src/merkleblock.cpp:115-162 | extracting from an encoded block of distinct transactions gives its root and exactly the matches with their positions, also after packing |
| `MerkleBlocks.VerdictSound` | src/merkleblock.cpp:131-162 | a successful extraction with the true root and count reports only true pairs, positions increasing |
| `MerkleClaims.ExtractAnyCount` | src/merkleblock.cpp:77-113 | the same whatever count is claimed, at the height of the true tree: since equal children are rejected, no repeated transaction and no position beyond the block is reported |
| `MerkleClaims.ClaimSound` | src/merkleblock.cpp:131-162 | a claimed count that does not make the tree lower than it is does no harm |
| `MerkleClaims.ClaimTooLow` | src/merkleblock.cpp:131-162 | one that makes the tree lower has a message, with the true root, that reports an inner node as a transaction |
| `MerkleClaims.BelievableIff` | src/merkleblock.cpp:131-162 | what is decoded with the true root may be believed exactly if the claimed count does not make the tree lower than it is; otherwise some message passes an inner node off as a transaction |
| `MerkleClaims.NothingLeftOver` | src/merkleblock.cpp:150-160 | a message that is accepted is not accepted with one more hash or one more byte of flags |
| `MerkleClaims.VerdictLimits` | src/merkleblock.cpp:131-142 | no count over 16666 transactions is believed, no more hashes than transactions, and no fewer flags than hashes |
| `MerkleRoots.RootsDiffer` | src/consensus/merkle.cpp:8-62 | two different lists of transactions, neither of them flagged as mutated, have different roots |
| `MerkleRoots.DistinctUnmutated` | src/consensus/merkle.cpp:45-62 | a list of distinct transactions is never flagged |
| `MerkleRoots.RepeatedLast` | src/consensus/merkle.cpp:13-18 | repeating the last of an odd number of transactions keeps the root, and is flagged |
| `MerkleRoots.RootIsTree` | src/merkleblock.cpp:39-57 | the root computed level by level is the one that partial trees are checked against |
| `MerkleRoots.ComputeMerkleRoot` | src/consensus/merkle.cpp:45-62 | that root, and whether some level has an equal pair |
| `MerkleRoots.FindEqualPair` | src/consensus/merkle.cpp:49-51 | whether a pair to be hashed together is equal |
| `MerkleRoots.HashPairs` | src/consensus/merkle.cpp:53-57 | the level above |
| `MerkleBlocks.EncodeBounds` | src/merkleblock.h:36-40 | the two documented bounds on the number of hashes of a whole block |
| `MerkleBlocks.PartialMerkleTree.CalcHash` | src/merkleblock.cpp:39-57 | the hash of the node of the full tree |
| `MerkleBlocks.PartialMerkleTree.ParentOfMatch` | src/merkleblock.cpp:61-63 | true exactly when a match lies below |
| `MerkleBlocks.PartialMerkleTree.TraverseAndBuild` | src/merkleblock.cpp:59-75 | appends the encoding of the node |
| `MerkleBlocks.PartialMerkleTree.TraverseAndExtract` | src/merkleblock.cpp:77-113 | computes the specified decoding, and sets the error flag whenever that fails |
| `MerkleBlocks.PartialMerkleTree.TreeHeight` | src/merkleblock.cpp:119-122 | the least height of width one |
| `MerkleBlocks.PartialMerkleTree.FromBlock` | src/merkleblock.cpp:115-127 | holds the encoding of the block |
| `MerkleBlocks.PartialMerkleTree.ExtractMatches` | src/merkleblock.cpp:131-162 | returns the specified verdict |
| `MerkleBlocks.PartialMerkleTree.Write` | src/merkleblock.h:99-103 | packs the flag bits eight to a byte |
| `MerkleBlocks.PartialMerkleTree.Read` | src/merkleblock.h:92-98 | unpacks them |
| `MerkleBlocks.SendAndReceive` | src/merkleblock.cpp:115-162 | encoding, packing, unpacking and extracting returns the root and exactly the matches |
| `Arith.BaseUint.Complement` | src/arith_uint256.h:66-72 | 2^BITS less one less the number |
| `Arith.BaseUint.Negate` | src/arith_uint256.h:74-81 | the negative modulo 2^BITS |
| `Arith.BaseUint.Increment` | src/arith_uint256.h:170-177 | plus one modulo 2^BITS |
| `Arith.BaseUint.Decrement` | src/arith_uint256.h:187-194 | minus one modulo 2^BITS |
| `Arith.BaseUint.AddAssign` | src/arith_uint256.h:132-142 | the sum modulo 2^BITS |
| `Arith.BaseUint.SubtractAssign` | src/arith_uint256.h:144-148 | the difference modulo 2^BITS |
| `Arith.BaseUint.MultiplyWord` | src/arith_uint256.cpp:54-64 | the product with a word modulo 2^BITS |
| `Arith.BaseUint.MultiplyAssign` | src/arith_uint256.cpp:66-80 | the product modulo 2^BITS |
| `Arith.BaseUint.ShiftLeft` | src/arith_uint256.cpp:20-35 | times a power of two modulo 2^BITS |
| `Arith.BaseUint.ShiftRight` | src/arith_uint256.cpp:37-52 | divided by a power of two, rounded down |
| `Arith.BaseUint.DivideAssign` | src/arith_uint256.cpp:82-106 | the exact quotient, rounded down; a zero divisor is an error |
| `Arith.BaseUint.CompareTo` | src/arith_uint256.cpp:108-118 | the order of the numbers |
| `Arith.BaseUint.EqualTo` | src/arith_uint256.cpp:120-132 | equality with a 64-bit number |
| `Arith.BaseUint.Bits` | src/arith_uint256.cpp:170-183 | the bit length |
| `LimbOps.SumIs` | src/arith_uint256.h:132-142 | carrying from limb to limb adds modulo 2^BITS |
| `LimbOps.ProductIs` | src/arith_uint256.cpp:66-80 | schoolbook rows cut off at the top multiply modulo 2^BITS |
| `LimbShifts.ShlIs` | src/arith_uint256.cpp:20-35 | limbs and bits moved up multiply by the power of two |
| `LimbShifts.ShrIs` | src/arith_uint256.cpp:37-52 | limbs and bits moved down divide by it |
| `LimbBits.TopDecides` | src/arith_uint256.cpp:108-118 | the highest differing limb decides the order |
| `LimbBits.TopBit` | src/arith_uint256.cpp:170-183 | the highest set bit of the highest nonzero limb gives the bit length |
| `LimbBits.DivideStep` | src/arith_uint256.cpp:96-104 | one bit of shift-and-subtract division keeps quotient and rest exact |
| `Compact.SetCompact` | src/arith_uint256.cpp:203-221 | the denoted number modulo 2^256, with the sign and overflow flags |
| `Compact.DenotedIs` | src/arith_uint256.cpp:203-221 | the denoted number is the mantissa times 256 to the size less three, rounded down, and it is negative exactly if the sign bit is set and the number is not zero |
| `Compact.OverflowIff` | src/arith_uint256.cpp:216-219 | the overflow flag is set exactly when the mantissa times its power reaches 2^256 before the cut |
| `Compact.FitsWithoutOverflow` | src/arith_uint256.cpp:216-219 | that is exactly when the denoted number does not fit |
| `Compact.GetCompact` | src/arith_uint256.cpp:223-244 | the compact form of the leading bytes, with the given sign |
| `Compact.PackedFields` | src/arith_uint256.cpp:239-243 | the fields of a packed form can be read back |
| `Compact.CompactRoundTrip` | src/arith_uint256.cpp:203-244 | encoding and decoding any 256-bit number raises no flag, loses less than one unit of the last place kept, and encodes to the same word |
| `Compact.CompactAgain` | src/arith_uint256.cpp:203-244 | the same for numbers as objects: encoded, decoded, encoded again |
| `Compact.GetBlockProof` | src/chain.cpp:122-135 | the floor of 2^256 over target plus one, and zero for an invalid target |
| `Compact.ProofIs` | src/chain.cpp:129-134 | the complement formula is that quotient |
| `Chains.BlockIndex.constructor` | src/chain.h:128-160 | a block one higher than its predecessor |
| `Chains.BlockIndex.BuildSkip` | src/chain.cpp:116-120 | the skip pointer is the ancestor at the skip height, and all are set if those below were |
| `SkipHeights.SkipHeight` | src/chain.cpp:70-82 | lies strictly below |
| `SkipHeights.SkipHalves` | src/chain.cpp:69-82 | the skip height of an even height has one bit of its half cleared, of an odd one two |
| `SkipHeights.TurnLess` | src/chain.cpp:84-109 | every turn of the walk leaves less to do |
| `SkipHeights.TurnsBound` | src/chain.cpp:70-109 | and at first it is at most the square of the number of bits of the height |
| `Chains.BlockIndex.GetAncestor` | src/chain.cpp:84-109 | equals following pprev step by step, and null outside the range; with all skip pointers set it takes at most as many turns as the square of the number of bits of the height |
| `Chains.LastCommonAncestor` | src/chain.cpp:156-171 | the lines meet exactly at the heights up to the result, and nowhere without one |
| `Chains.Chain.SetTip` | src/chain.cpp:11-21 | every height holds the ancestor of the tip despite the early exit |
| `Chains.Chain.ContainsIff` | src/chain.h:400-408 | a block is on the chain exactly when it is an ancestor of the tip |
| `Chains.Chain.FindFork` | src/chain.cpp:51-60 | the highest block of the chain that is an ancestor of the argument |
| `Chains.Chain.GetLocator` | src/chain.cpp:23-49 | ancestors at the distances of ten single and then doubling steps, down to height zero |
| `Chains.LocatorDecreases` | src/chain.cpp:23-49 | heights strictly decrease |
| `Chains.LocatorShort` | src/chain.cpp:23-49 | at most twelve plus the binary logarithm of the height entries |
| `Chains.LocatorNear` | src/chain.cpp:23-49 | for every height a locator has a block not above it and at most twice as far from the start, and for the eleven heights below the start the very block |
| `Chains.NextBack` | src/chain.cpp:31-46 | the step leads from one entry to the next, and stays at most twice the height, so it does not overflow below height 2^30 |
| `CuckooTables.InsertConserves` | src/cuckoocache.h:392-440 | the live elements gain exactly the inserted one, unless the copy found is live, and lose at most one; the current epoch grows by at most one |
| `CuckooCopies.InsertSole` | src/cuckoocache.h:392-440 | apart from the blank element, no two slots ever hold the same |
| `CuckooCopies.InsertLive` | src/cuckoocache.h:392-440 | so inserting an element that is live leaves the live elements as they are, and otherwise they gain it and lose at most one |
| `CuckooCopies.LiveOnce` | src/cuckoocache.h:392-440 | no element is live twice |
| `CuckooCopies.RunSound` | src/cuckoocache.h:288-479 | over every run from set-up the table holds only blanks and single copies of what was inserted |
| `CuckooCopies.FoundIff` | src/cuckoocache.h:442-479 | an element is found only after it was inserted, in every run, exactly when it is not the blank one, which a table just set up contains at once |
| `CuckooCopies.BlankIsFound` | src/cuckoocache.h:339-352 | a table just set up contains the blank element |
| `CuckooCopies.EraseHidesNone` | src/cuckoocache.h:442-467 | marking an element for collection hides nothing |
| `CuckooCaches.InsertMarkFind` | src/cuckoocache.h:442-467 | the law given there for re-organisations: after an insertion, an element that is found and marked is still found |
| `CuckooTables.DisplaceConserves` | src/cuckoocache.h:406-439 | a displacement run of any length conserves the live elements with the one in hand |
| `CuckooTables.DisplaceHome` | src/cuckoocache.h:406-439 | and keeps every live element in one of its own eight slots |
| `CuckooTables.LiveIsFound` | src/cuckoocache.h:469-479 | an element in one of its own slots is found |
| `CuckooTables.EpochBound` | src/cuckoocache.h:288-320 | the current epoch stays within its size and a sixteenth |
| `CuckooTables.SetupGood` | src/cuckoocache.h:339-352 | a table just set up is good |
| `CuckooTables.StepGood` | src/cuckoocache.h:288-479 | an epoch check with insertion, or a lookup, keeps it good |
| `CuckooTables.RunGood` | src/cuckoocache.h:288-479 | so does every run: every live element is found, and the epoch bound holds |
| `CuckooTables.NextWayIs` | src/cuckoocache.h:416-431 | a displaced element moves on to the next of its eight slots, round them; a new one starts with the second |
| `CuckooTables.MovesOnIff` | src/cuckoocache.h:416-431 | the slot it moves on to is another one exactly if that is not the same slot again |
| `CuckooTables.MovesOnCounterexample` | src/cuckoocache.h:416-431 | an element with the same slot twice in a row is moved again at once; a new element takes over its second slot, not its first |
| `CuckooEpochs.CheckKeeps` | src/cuckoocache.h:288-320 | an epoch check keeps every live element of the current epoch live, and gives up exactly the live ones of the epoch before, if its counter has run out and the epoch is full; otherwise it changes no slot |
| `CuckooEpochs.CheckCounts` | src/cuckoocache.h:294-319 | when the next check comes |
| `CuckooEpochs.PutAll` | src/cuckoocache.h:392-440 | in terms of the table as it was: at most one element is dropped; but for that one, the inserted element is live and recent and all that survives the epoch check stays live |
| `CuckooEpochs.InsertDropsLate` | src/cuckoocache.h:406-439 | one is dropped only where as many elements as the depth limit pushed each other out, each finding all its eight slots live |
| `CuckooEpochs.ChangesApart` | src/cuckoocache.h:288-320 | between two changes of the epoch there is a whole epoch of insertions |
| `CuckooEpochs.StaysAnEpoch` | src/cuckoocache.h:288-479 | over every run, an inserted element that is neither marked nor dropped stays live and is found through the next whole epoch of insertions |
| `CuckooEpochs.OldIsGivenUp` | src/cuckoocache.h:304-309 | at the second change of epoch it is given up |
| `CuckooCaches.AnySlots` | src/cuckoocache.h:242-252 | the eight slots are independent: eight hashes can make them any given ones |
| `CuckooCaches.HomeIsHashing` | src/cuckoocache.h:242-252 | the eight scaled hashes lie in the table |
| `CuckooCaches.Cache.Setup` | src/cuckoocache.h:339-352 | the table is empty and valid |
| `CuckooCaches.Cache.CountRecent` | src/cuckoocache.h:294-299 | counts the live elements of the current epoch |
| `CuckooCaches.Cache.AgeAll` | src/cuckoocache.h:304-309 | ages every slot as specified |
| `CuckooCaches.Cache.EpochCheck` | src/cuckoocache.h:288-320 | the specified check |
| `CuckooCaches.Cache.Insert` | src/cuckoocache.h:392-440 | the specified step; the object stays valid and the epoch within its bound; the live elements gain the inserted one, if it is not the blank one and not live, and lose at most one |
| `CuckooCaches.Cache.DisplaceLoop` | src/cuckoocache.h:406-439 | the specified displacement |
| `CuckooCaches.Cache.TakeTurn` | src/cuckoocache.h:407-438 | one turn of it |
| `CuckooCaches.Cache.AllowErase` | src/cuckoocache.h:265-268 | marks one slot |
| `CuckooCaches.Cache.Contains` | src/cuckoocache.h:469-479 | finds every live element, and nothing but blanks and what was inserted; marks it when asked to |
| `CuckooCaches.BitPackedFlags.Set` | src/cuckoocache.h:90-93 | sets exactly that flag |
| `CuckooCaches.BitPackedFlags.Unset` | src/cuckoocache.h:101-104 | clears exactly that flag |
| `CuckooCaches.BitPackedFlags.Setup` | src/cuckoocache.h:78-82 | all flags set |
| `BloomGenerations.LabelsTell` | src/bloom.cpp:246-275 | three generation numbers suffice: only the last three generations are ever present, so the number tells which |
| `BloomGenerations.StillWritten` | src/bloom.cpp:246-275 | a position written for a key is still marked two generations later |
| `BloomGenerations.Remembers` | src/bloom.cpp:206-275 | every one of the last n keys is marked at all its positions |
| `BloomGenerations.ClockIs` | src/bloom.cpp:247-264 | the generation changes every e insertions |
| `BloomGenerations.HeldIff` | src/bloom.cpp:246-275 | a position is marked exactly when a key of the last three generations has it |
| `BloomFilters.InsertHolds` | src/bloom.cpp:246-275 | wiping when a generation ends and then marking is the specified history |
| `BloomFilters.RecentMarked` | src/bloom.cpp:283-295 | the positions looked up for a recent key are all marked |
| `BloomFilters.PositionsInRange` | src/bloom.cpp:242-272 | every position lies in the table |
| `BloomFilters.FoundIff` | src/bloom.cpp:246-295 | a key looks present exactly when each of its positions is one of a key of the last three generations; so every key is forgotten unless others cover it |
| `BloomFilters.EveryPosition` | src/bloom.cpp:239-271 | word and bit are taken from different ends of the hash, so no position is out of reach |
| `BloomFilters.RollingBloomFilter.constructor` | src/bloom.cpp:206-231 | nothing inserted |
| `BloomFilters.RollingBloomFilter.Wipe` | src/bloom.cpp:254-262 | clears exactly the positions of the reused number |
| `BloomFilters.RollingBloomFilter.Mark` | src/bloom.cpp:267-274 | writes the current number at one position, and only there |
| `BloomFilters.RollingBloomFilter.Insert` | src/bloom.cpp:246-275 | keeps the two bit planes equal to the specified history |
| `BloomFilters.RollingBloomFilter.Contains` | src/bloom.cpp:283-295 | true exactly when all positions are marked, and so for each of the last nElements keys |
| `BloomFilters.RollingBloomFilter.Reset` | src/bloom.cpp:303-309 | forgets everything |
| `Base58Codec.CharDigit` | src/base58.cpp:18-36 | alphabet and table are inverse |
| `Base58Strings.Alphabet` | src/base58.cpp:17-36 | the characters are the digits and letters without 0, I, O and l in the order of their codes; spaces are the six of the C locale |
| `Base58Strings.PublishedCode` | src/test/data/base58_encode_decode.json:10 | a published encoding: most significant byte and character come first |
| `Base58Codec.RoundTrip` | src/base58.cpp:38-125 | decoding an encoded byte string of allowed length gives it back |
| `Base58Codec.ReverseTrip` | src/base58.cpp:38-125 | encoding what a string without spaces decodes to gives the string back |
| `Base58Strings.DecodedIff` | src/base58.cpp:38-85 | a string decodes to a byte string exactly when it is its encoding with any spaces around it and the bytes are not too many |
| `Base58Codec.CheckRoundTrip` | src/base58.cpp:140-164 | the same with a four-byte checksum |
| `Base58Codec.CheckReverseTrip` | src/base58.cpp:140-164 | the same in the other direction |
| `PowerBounds.EncodedFits` | src/base58.cpp:96-98 | the output buffer of the encoder holds every number of that many bytes |
| `PowerBounds.DecodedFits` | src/base58.cpp:51-53 | the output buffer of the decoder holds every number of that many digits |
| `PowerBounds.Proportion` | src/base58.cpp:51-52 | one comparison of powers gives the bound for every length |
| `Base58Conversion.NoCarryLeft` | src/base58.cpp:62-67 | the assertion that no carry is left holds at every digit |
| `Base58Conversion.MultiplyAdd` | src/base58.cpp:61-68 | the buffer holds its number times the base plus the digit, and the length is kept |
| `Base58Conversion.EncodeBase58` | src/base58.cpp:87-125 | the specified encoding |
| `Base58Conversion.EncodeNumber` | src/base58.cpp:96-124 | the canonical digits of the number |
| `Base58Conversion.ReadWord` | src/base58.cpp:51-71 | reads a word, or fails on a foreign character or too many bytes |
| `Base58Conversion.DecodeBase58` | src/base58.cpp:38-85 | the specified decoding, failures included |
| `Radix.Unique` | src/base58.cpp:87-125 | canonical numerals are unique |
| `Bech32Checksums.StepLinear` | src/bech32.cpp:61-88 | one step of the remainder is linear with respect to exclusive or |
| `Bech32Checksums.StepInjective` | src/bech32.cpp:61-88 | and loses nothing |
| `Bech32Checksums.RunLinear` | src/bech32.cpp:33-90 | so is a run over any number of symbols |
| `Bech32Checksums.DifferenceStays` | src/bech32.cpp:33-90 | equal symbols never bring two different remainders together |
| `Bech32Checksums.ChecksumIff` | src/bech32.cpp:113-135 | six symbols behind an input make the remainder one exactly when they are its checksum |
| `Bech32Checksums.BurstChanges` | src/bech32.cpp:33-90 | any change within six consecutive symbols of an input of any length changes the remainder |
| `Bech32.CreateThenVerify` | src/bech32.cpp:113-135 | for every prefix and list of values, appending six symbols makes the check succeed exactly when they are the checksum |
| `Bech32.DetectsBurst` | src/bech32.cpp:113-121 | changing any of up to six consecutive data or checksum symbols makes the check fail |
| `Bech32.DetectsOneChange` | src/bech32.cpp:113-121 | in particular, changing exactly one symbol does |
| `Bech32.DetectsPair` | src/bech32.cpp:33-45 | changing any two data or checksum symbols up to 88 places apart, hence any two within the 90 characters allowed, makes the check fail |
| `Bech32.DetectsPrefix` | src/bech32.cpp:99-121 | the checksum covers the prefix: changing one character of a prefix of up to 87 characters makes the check fail |
| `Bech32Published.Published` | src/test/bech32_tests.cpp:19 | a published string that lists all 32 characters in order is accepted, for the values 0 to 31 |
| `Bech32Pairs.PairChanges` | src/bech32.cpp:33-90 | two changes up to 88 places apart change the remainder of an input of any length |
| `Bech32Pairs.StepTwice` | src/bech32.cpp:46-88 | one step commutes with doubling every coefficient in GF(32) |
| `Bech32Pairs.AllSpread` | src/bech32.cpp:33-90 | so a changed symbol spreads beyond the last coefficient for 88 steps, whatever the change |
| `Bech32Fields.PowersHigh` | src/bech32.cpp:33-90 | no power of the variable from the first to the 88th leaves a constant |
| `Bech32Fields.TimesVal` | src/bech32.cpp:61-88 | multiplying by the variable on 35-bit words is the step on numbers |
| `Bech32.CharOfReverse` | src/bech32.cpp:15-28 | the two tables are inverse, up to case |
| `Bech32.PolyMod` | src/bech32.cpp:33-90 | the specified remainder, below 2^30 |
| `Bech32.PolyStep` | src/bech32.cpp:76-87 | the five conditional additions are one step |
| `Bech32.ExpandHRP` | src/bech32.cpp:99-111 | two symbols for every character, from which it can be read back, high parts first, and a zero between |
| `Bech32.VerifyChecksum` | src/bech32.cpp:114-121 | true exactly when the remainder is one |
| `Bech32.CreateChecksum` | src/bech32.cpp:124-135 | the specified checksum, which verifies |
| `Bech32.Encode` | src/bech32.cpp:143-156 | prefix, separator, and the characters of data and checksum |
| `Bech32.Decode` | src/bech32.cpp:159-190 | finds the payload whose encoding the string is, up to case and of at most 90 characters, whenever there is one, and fails otherwise |
| `Bech32.AcceptsUnique` | src/bech32.cpp:159-190 | there is at most one |
| `Bech32.RoundTripIff` | src/bech32.cpp:143-190 | an encoding is accepted exactly when its prefix is non-empty and printable and it has at most 90 characters |
| `Bech32.EncodeAndDecode` | src/bech32.cpp:143-190 | encoding and then decoding returns the payload exactly in those cases |

## Left out

- Start-up, networking, RPC, wallets, scripts, signatures and databases: outside the data structures modelled here; the database under the coin caches is a plain map.
- AddrManager.AddrMan.GetAddr_: clocks and random draws are parameters, here and in every other operation of the address manager; Select_ with its floating-point chance is not part of this model.
- AddrCheck.Check: leaves out the clauses on time stamps and the null key, because the operations take arbitrary clocks; asking mapAddr for an unknown address gives zero without inserting it.
- AddrFiles.Unserialize: a stream is a record whose lists are as long as the counts in it announce, so truncated or negative counts are not modelled; it fills a newly made manager, as Clear does not forget pending collisions; the key and the asmap select the placement functions, and an asmap is identified with its hash.
- AddrFiles.Serialize: an entry is written as the part of it that is not memory-only; its byte format is not modelled.
- CoinsViews.CoinsView.Flush: best-block hashes and the failure of a database write are not modelled.
- CoinsViews.CoinsView.BatchWriteDatabase: the batch is applied at once; partial batches and recovery are not modelled.
- CheckQueue.RunInv: critical sections are atomic events and a notification wakes any waiting thread; memory ordering below that is not modelled, and each evaluation of a check is one event.
- Miner.BlockAssembler.Choose: fee rates are compared by exact products, not by products of floating-point numbers; the index of the memory pool is a sequence sorted by that order.
- Miner.BlockAssembler.AddPackageTxs: block header, coinbase and the statistics counters are not modelled; the coinbase is its reserved weight and signature cost.
- Miner.BlockAssembler.TestPackageTransactions: finality and the presence of a witness are attributes of a transaction.
- MerkleBlocks.PartialMerkleTree.ExtractMatches: the null hash is a separate failure value, and hashing is an injective constructor, so collisions of the hash function are not modelled; integers are unbounded, which the count limit of the code keeps harmless.
- MerkleRoots.ComputeMerkleRoot: the caller's choice not to ask for the flag and the witness root, which is the same computation on other hashes, are not modelled.
- Arith.BaseUint.MultiplyAssign: conversion to floating point and hexadecimal strings are not part of this model.
- Chains.BlockIndex.GetAncestor: file positions, work and status fields of a block index are not modelled; the bound of 110 turns for 2^18 blocks that the code reports from simulations is not stated, only one that holds for all heights.
- ModifiedTotals.TotalsExact: the totals of an entry that failed and was listed again are only bounded, because the code starts again from the cached ones.
- CuckooCaches.Cache.Setup: the depth limit is a parameter instead of a floating-point logarithm, and the 32-bit wrap-around of 45 times the size for very large tables is not modelled; flags are updated one at a time, without atomics.
- BloomFilters.RollingBloomFilter.constructor: the number of hash functions and the table size are parameters instead of floating-point results; a 64-bit word is the list of its bits. CBloomFilter is not part of this model.
- BloomFilters.EveryPosition: stated for tables of at most 2^26 words, where the bits of the hash that select the word and those that select the bit do not overlap.
- Base58Codec.CheckRoundTrip: the double SHA-256 checksum is an arbitrary function with four-byte results.
- Bech32.DetectsPair: detection of two changes more than 88 places apart, and of three or four changes that are not within six consecutive symbols, is not stated; the code's comments claim it from the theory of BCH codes.
- Bech32.Decode: characters are code points; those above 126 are rejected like other unprintable ones.
