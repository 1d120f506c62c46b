# ImageCoin: verified models of the node's core data structures and protocols

ImageCoin is a Bitcoin and Dash derived node. This project models ten of its components in Dafny and proves what
the node relies on them for. `dafny verify dfyconfig.toml` checks everything.

| component | source | files |
|---|---|---|
| layered coin cache | `src/coins.cpp`, `src/coins.h`, `src/txdb.cpp` | `CoinStack`, `CoinRuns`, `Coins` |
| address manager | `src/addrman.cpp`, `src/addrman.h` | `AddrTables`, `AddrUpdates`, `AddrMoves`, `AddrOps`, `AddrRuns`, `AddrTimes`, `AddrMan`, `AddrCheck`, `AddrDump`, `AddrFile`, `AddrLoads` |
| InstantSend locks | `src/instantx.cpp`, `src/instantx.h` | `InstantSend`, `InstantSendSafety`, `InstantSendLists`, `InstantSendForgets`, `InstantSendNet`, `InstantSendNode` |
| parallel check queue | `src/checkqueue.h` | `CheckQueue`, `CheckQueueSafety`, `CheckQueueObject` |
| 256-bit arithmetic, compact targets | `src/arith_uint256.cpp`, `src/arith_uint256.h` | `Bits`, `Limbs`, `ArithSteps`, `ArithShifts`, `ArithDivision`, `ArithUint`, `CompactTargets` |
| block index and active chain | `src/chain.cpp`, `src/chain.h` | `SkipHeights`, `BlockTree`, `ActiveChain` |
| Base58 | `src/base58.cpp` | `Radix`, `Base58`, `Base58Codec` |
| bloom filters | `src/bloom.cpp`, `src/bloom.h` | `Bloom`, `BloomFilters` |
| bounded cache maps | `src/cachemap.h`, `src/cachemultimap.h` | `CacheMaps`, `CacheMultiMaps` |
| mnemonics | `src/bip39.cpp` | `BitStreams`, `Mnemonic`, `MnemonicCodec` |

`Common` has the few definitions that several components share.

## How the models are built

Code that updates an object in place is a class whose methods are proved against functions on values; the theorems
are about those functions, over all inputs and all runs. Code that works in a buffer keeps the array. Hash functions,
random draws, clocks, network validity checks and the word list are parameters: every theorem holds for all of them.

- **Coins.** A stack of caches over a database, of any depth. What a stack shows at an outpoint is its top entry if
  there is one, else what the view below shows. Every run that keeps AddCoin's promise acts on the views of all levels
  as the same operations act on a stack of plain maps (`CoinRuns.RunRefines`).
- **Address manager.** `AddrTables.Consistent` is the invariant behind the source's own self-check. It holds after every
  run of every operation, no operation forgets a tried address, and a written file reads back as the same manager under
  new ids. While an entry moves between the tables the invariant holds but for the entries in flight (`Transit`). The
  clock readings kept with entries are a matter of their own (`AddrTimes.Timed`).
- **InstantSend.** A node is a state machine over requests, votes, orphan votes, own votes and clean-up. Outpoints on
  which a candidate has been removed are remembered in a history field, because removal erases voting history. Elsewhere
  two conflicting transactions are never both ready on one node, and across a network they are not if at most one of the
  ten masternodes of the outpoint equivocates.
- **Check queue.** Each critical section and each evaluation of a batch is one step; all interleavings of any number of
  threads are covered, spurious wake-ups included. A Wait lasts for a bounded number of useful steps, and as long as it
  lasts one is enabled.
- **Arithmetic.** Limbs are integers below 2^32 in an array of any length; 64-bit intermediates are shown to fit. Shifts,
  products, differences and quotients equal the integer operations modulo the width.

## Findings

Where the code does not meet what its documentation or shape suggests, the model follows the code and a lemma gives the
exact condition.

- `*=` with the same object on both sides yields zero, since the object is cleared before it is read
  (`ArithUint.BaseUint.Multiply`).
- The mnemonic checker accepts what the printer writes exactly for 16, 24 and 32 bytes of data: the sentences of 15 and
  21 words that the printer makes for 20 and 28 bytes are refused (`Mnemonic.CheckFromData`). It accepts nothing that has
  not been printed (`Mnemonic.AcceptsExactly`).
- AddCoin's promise is exactly what keeps FRESH honest (`CoinStack.PromiseExact`); breaking it revives a spent coin
  (`CoinStack.BrokenPromiseRevives`). SpendCoin reports success as soon as an entry exists, even a spent one.
- Clear of the address manager leaves the two maps of entries alone, so it gives a consistent manager exactly if they
  were empty (`AddrFiles.Reset`).
- The self-check of the address manager tells its invariant but for the addresses: it accepts an address that leads to
  no entry (`AddrChecks.PassesExactly`, `AddrChecks.StalePasses`). The operations keep its conditions on times exactly if
  the times they are given are right (`AddrTimes.StepTimed`).
- Reading a complete peers file gives a consistent manager exactly if its counts are not negative and no entry that is
  kept shares its address with another one read (`AddrLoads.LoadedConsistent`); a file with one record twice does not
  (`AddrLoads.RepeatedRecord`).
- An InstantSend vote is listed under its outpoint before anything asks whether its transaction spends that outpoint.
  The lists stay well exactly if it does (`InstantSendLists.NoteWell`, `InstantSendLists.StepWell`), and then Vote never
  looks up an unknown candidate (`InstantSendLists.RunKnown`); a run of five events in which it does not leaves a list
  that names a removed candidate (`InstantSendLists.StrayLeavesUnknown`).
- Removing an InstantSend candidate erases the list of votes on its outpoints. After that a quorum that votes twice is
  not noticed, and the lock passes from one transaction to a conflicting one (`InstantSendForgets.ForgottenBothReady`).
- Re-deriving the flags of a bloom filter loses a key exactly if it has data, no bit set and no hash function
  (`Bloom.UpdateExact`), as one of a single byte does (`Bloom.UpdateForgets`).
- A cache map keeps its bound exactly if the bound is at least one (`CacheMaps.BoundKept`). A multimap prunes before it
  looks for a duplicate: offering a pair that is there changes nothing exactly if the map is not full or holds nothing
  else (`CacheMultiMaps.RefusedUnchanged`), and the pair is taken for new exactly if it is the oldest of a full map
  (`CacheMultiMaps.TakenForNew`).
- Comparing two chains reads past the end of a vector exactly if both are empty (`ActiveChain.SameTipSameChain`).

## Model

| member | source | states |
|---|---|---|
| `CoinStack.FetchKeeps` | src/coins.cpp:41-56 | loading an entry through every level changes no view at any level, and the entry at the top shows exactly what the view shows |
| `CoinStack.AnswerIsLook` | src/coins.cpp:41-65 | with no spent coin in the database, what GetCoin answers through any number of caches is what the view shows |
| `CoinStack.AddKeeps` | src/coins.cpp:67-86 | under the overwrite promise, adding shows the coin at its outpoint, changes no other outpoint, and keeps the meaning of both flags |
| `CoinStack.PromiseExact` | src/coins.cpp:77-82 | AddCoin keeps the flags honest if and only if, unless overwriting, an outpoint without an entry has no unspent coin below |
| `CoinStack.BrokenPromiseRevives` | src/coins.cpp:67-112 | a concrete stack where breaking the promise makes a spent coin come back |
| `CoinStack.SpendKeeps` | src/coins.cpp:98-112 | spending removes the outpoint from the view and nothing else, whether the entry was fresh, dirty or fetched |
| `CoinStack.UncacheKeeps` | src/coins.cpp:208-215 | dropping an unmodified entry never changes the view |
| `CoinStack.NeverMisapplied` | src/coins.cpp:165-172 | with honest flags the "FRESH flag misapplied" throw is out of reach for every entry |
| `CoinStack.MergeLook` | src/coins.cpp:145-199 | merging one outpoint into the parent makes the parent show what the child showed, and keeps the flags of the result honest |
| `CoinStack.WriteKeeps` | src/coins.cpp:145-199 | after a batch write the view below equals the view above, for a cache or a database below, whatever the order of entries |
| `CoinStack.FlushKeeps` | src/coins.cpp:201-206 | Flush leaves the view unchanged and makes the base view equal to it |
| `CoinStack.FlushAllCommits` | src/coins.cpp:201-206 | flushing every cache from the top down makes the database map equal to the original top view |
| `CoinRuns.AddRefines` | src/coins.cpp:67-86 | AddCoin throws exactly where a plain map would refuse to overwrite, and otherwise is a plain insert |
| `CoinRuns.SpendRefines` | src/coins.cpp:98-112 | SpendCoin is a plain delete on the top view and leaves every lower view alone |
| `CoinRuns.FlushRefines` | src/coins.cpp:201-206 | Flush copies the top view to the next level and touches no other |
| `CoinRuns.StepRefines` | src/coins.cpp:41-215 | every operation keeps the flags honest at every level and acts on the stack of views as on a stack of plain maps |
| `CoinRuns.RunRefines` | src/coins.cpp:41-215 | every run of reads, adds, spends, evictions, flushes, pushes and pops refines a run of plain maps |
| `Coins.HonestNever` | src/coins.cpp:166-171 | no entry of an honest child makes BatchWrite throw |
| `Coins.CoinsView.Over` | src/coins.cpp:35-35 | a new cache shows what its base shows |
| `Coins.CoinsView.Database` | src/txdb.cpp:64-102 | the bottom view is a plain map |
| `Coins.CoinsView.FetchCoin` | src/coins.cpp:41-56 | finds an entry exactly if there is one after fetching through the chain of bases |
| `Coins.CoinsView.GetCoin` | src/coins.cpp:58-65 | answers, on any stack, what the caches on the way let through; with honest flags that is the unspent coin the view shows, if any |
| `Coins.CoinsView.HaveCoin` | src/coins.cpp:125-128 | answers whether the view shows an unspent coin |
| `Coins.CoinsView.AccessCoin` | src/coins.cpp:116-123 | returns the coin the view shows, or a pruned one if there is none |
| `Coins.CoinsView.HaveCoinInCache` | src/coins.cpp:130-133 | what it finds the view shows; what it misses is not cached or shown as spent |
| `Coins.CoinsView.AddCoin` | src/coins.cpp:67-86 | throws exactly for an unspent entry without leave to overwrite; ignores unspendable outputs |
| `Coins.CoinsView.SpendCoin` | src/coins.cpp:98-112 | returns the coin the view showed; reports success exactly if there was an entry or a coin below |
| `Coins.CoinsView.Uncache` | src/coins.cpp:208-215 | removes only an entry that is neither dirty nor fresh |
| `Coins.CoinsView.MergeEntry` | src/coins.cpp:147-193 | throws exactly for a misapplied fresh flag and changes nothing then |
| `Coins.CoinsView.BatchWrite` | src/coins.cpp:145-199 | in any order of entries: throws exactly if some fresh flag is misapplied, with only good entries merged before it, and otherwise merges every entry by itself |
| `Coins.CoinsView.Flush` | src/coins.cpp:201-206 | never throws on honest flags; the base has taken over every change and the cache is empty |
| `Coins.CoinsView.HaveInputs` | src/coins.cpp:233-243 | true exactly for a coinbase or if every previous output is shown as unspent, with no view changed |
| `AddrUpdates.SwapKeeps` | src/addrman.cpp:99-117 | swapping two places of vRandom keeps the whole invariant |
| `AddrUpdates.DeleteKeeps` | src/addrman.cpp:119-131 | deleting an unreferenced new entry keeps the invariant and the tables |
| `AddrUpdates.ClearNewKeeps` | src/addrman.cpp:133-146 | clearing a new slot keeps the invariant, deleting the entry with its last reference |
| `AddrUpdates.CreateKeeps` | src/addrman.cpp:87-97 | a created entry is in flight and everything else is as consistent as before |
| `AddrMoves.WithdrawKeeps` | src/addrman.cpp:150-159 | taking an entry out of all its new slots leaves it alone in flight |
| `AddrMoves.DemoteKeeps` | src/addrman.cpp:169-176 | taking an entry out of its tried slot puts it in flight as new |
| `AddrMoves.EvictKeeps` | src/addrman.cpp:167-188 | evicting a tried entry into its own new slot keeps the invariant |
| `AddrMoves.EnterKeeps` | src/addrman.cpp:189-193 | entering the tried table ends the flight: the whole invariant holds again |
| `AddrOps.EvictEffect` | src/addrman.cpp:167-188 | the evicted entry stays known with one reference; at most one entry is forgotten, and it was new |
| `AddrOps.MakeTriedKeeps` | src/addrman.cpp:148-194 | MakeTried keeps the whole invariant |
| `AddrOps.MakeTriedPlain` | src/addrman.cpp:148-194 | into an empty slot: the tried set grows by the entry, nothing is forgotten |
| `AddrOps.MakeTriedEvicts` | src/addrman.cpp:148-194 | into a full slot: the occupant becomes new again, no tried entry and at most one new entry is forgotten |
| `AddrOps.LookupFinds` | src/addrman.cpp:74-85 | lookup of a service finds an entry exactly if one has that service |
| `AddrOps.GoodReachesTried` | src/addrman.cpp:196-243 | the "something bad happened" exit is unreachable: a known address is tried afterwards, with its statistics reset |
| `AddrRuns.InsertKeeps` | src/addrman.cpp:289-309 | linking an entry into a new slot keeps the whole invariant |
| `AddrRuns.InsertEffect` | src/addrman.cpp:289-309 | only a terrible entry whose last reference was in the slot is pushed out, or the entry itself if it found no slot |
| `AddrRuns.AddKeeps` | src/addrman.cpp:245-311 | Add_ keeps the whole invariant |
| `AddrRuns.AddEffect` | src/addrman.cpp:245-311 | Add_ reports new exactly for a routable unknown address, leaves the tried set alone and forgets only terrible entries |
| `AddrRuns.GetAddrResult` | src/addrman.cpp:457-476 | GetAddr_ only reorders vRandom; it gives out at most 23 percent and at most 2500, none terrible, no network address twice |
| `AddrRuns.DrawResult` | src/addrman.cpp:462-475 | the drawing loop returns exactly the decent addresses among the places drawn, up to the limit |
| `AddrRuns.PlacesCount` | src/addrman.cpp:385-386 | vRandom lists every known id once |
| `AddrRuns.GoodForgets` | src/addrman.cpp:196-243 | Good_ forgets no tried address and at most one other |
| `AddrRuns.StepKeeps` | src/addrman.cpp:87-311 | every operation keeps the invariant, and none forgets a tried address |
| `AddrRuns.RunConsistent` | src/addrman.cpp:380-454 | over every run from a fresh manager, whatever the times, the invariant holds |
| `AddrTimes.StepTimed` | src/addrman.cpp:196-330 | an operation keeps every recorded time in order if and only if the time given for a known address is positive, or for an attempt not negative |
| `AddrTimes.RunTimed` | src/addrman.cpp:196-330 | over every run with positive times the recorded times are in order |
| `AddrChecks.ConsistentPasses` | src/addrman.cpp:380-454 | the invariant, times in order and a key imply every clause of the self-check |
| `AddrChecks.PassesExactly` | src/addrman.cpp:380-454 | the self-check and right addresses and ids together amount exactly to the invariant, times in order and a key |
| `AddrChecks.StalePasses` | src/addrman.cpp:404-405 | a manager with an address that leads to no entry passes and is not consistent |
| `AddrChecks.PlacesTaken` | src/addrman.cpp:385-410 | as many places as entries, each with a place of its own, leave no place without an entry |
| `AddrChecks.Check_` | src/addrman.cpp:380-454 | the self-check with its walks and working copies answers zero if and only if its clauses hold of the whole state |
| `AddrChecks.CheckValid` | src/addrman.cpp:380-454 | on a valid manager with times in order and a key the self-check answers zero |
| `AddrChecks.CheckEntries` | src/addrman.cpp:388-417 | the walk over mapInfo finds a fault exactly if an entry has one, and collects the tried ids and the reference counts |
| `AddrChecks.CheckTried` | src/addrman.cpp:419-431 | the walk over the tried table finds a fault exactly if a slot has one |
| `AddrChecks.CheckNew` | src/addrman.cpp:433-444 | the walk over the new table finds a fault exactly if a slot has one |
| `AddrManagers.AddrMan.constructor` | src/addrman.h:437-460 | a fresh manager is consistent and empty |
| `AddrManagers.AddrMan.Find` | src/addrman.cpp:74-85 | finds an id exactly if the network address is known |
| `AddrManagers.AddrMan.CreateEntry` | src/addrman.cpp:87-97 | creates the entry with a new id at the end of vRandom |
| `AddrManagers.AddrMan.Swap` | src/addrman.cpp:99-117 | exchanges two places of vRandom and their back pointers |
| `AddrManagers.AddrMan.Remove` | src/addrman.cpp:119-131 | removes an entry from both maps and vRandom |
| `AddrManagers.AddrMan.ClearSlot` | src/addrman.cpp:133-146 | frees a new slot, deleting the entry with its last reference |
| `AddrManagers.AddrMan.WithdrawAll` | src/addrman.cpp:150-158 | the loop over all buckets withdraws every reference, and no more than there are |
| `AddrManagers.AddrMan.EvictEntry` | src/addrman.cpp:167-188 | moves the occupant of a tried slot back to its new slot |
| `AddrManagers.AddrMan.MoveToTried` | src/addrman.cpp:148-194 | is MakeTried on the whole state, with no assertion of the source failing |
| `AddrManagers.AddrMan.FindBucket` | src/addrman.cpp:222-237 | finds a bucket that refers to the entry, starting anywhere; there always is one |
| `AddrManagers.AddrMan.Good_` | src/addrman.cpp:196-243 | keeps the invariant and is the Good step |
| `AddrManagers.AddrMan.InsertEntry` | src/addrman.cpp:289-309 | keeps the invariant and is the linking step of Add_ |
| `AddrManagers.AddrMan.Add_` | src/addrman.cpp:245-311 | keeps the invariant, is the Add step and answers whether the address was new |
| `AddrManagers.AddrMan.Attempt_` | src/addrman.cpp:313-330 | keeps the invariant; only the statistics of the address change |
| `AddrManagers.AddrMan.Connected_` | src/addrman.cpp:478-496 | keeps the invariant; only the time of the address changes |
| `AddrManagers.AddrMan.SetServices_` | src/addrman.cpp:498-514 | keeps the invariant; only the services of the address change |
| `AddrManagers.AddrMan.GetAddr_` | src/addrman.cpp:457-476 | keeps the invariant and returns the drawn addresses |
| `AddrDumps.ListsComplete` | src/addrman.h:298-317 | each entry is written in exactly one of the two lists, which are as long as the counters say |
| `AddrDumps.OrderOfRename` | src/addrman.h:298-317 | writing order undoes the renaming of ids |
| `AddrDumps.RenameOfOrder` | src/addrman.h:298-317 | the renaming of ids undoes the writing order |
| `AddrDumps.RebuiltConsistent` | src/addrman.h:284-430 | the manager under new ids satisfies the invariant |
| `AddrFiles.Serialize` | src/addrman.h:285-332 | writes the records, the bucket rows and the header of the whole state |
| `AddrFiles.WriteNew` | src/addrman.h:298-308 | writes the new entries and numbers them in order |
| `AddrFiles.WriteTried` | src/addrman.h:309-317 | writes the tried entries in order |
| `AddrFiles.WriteRow` | src/addrman.h:319-330 | writes the numbers of the entries of a bucket in position order |
| `AddrFiles.ReadNew` | src/addrman.h:355-373 | reads exactly the new records; fails exactly if there are too few |
| `AddrFiles.ReadTried` | src/addrman.h:375-394 | reads tried records into their slots and adjusts the count by those lost, for any counts in the file |
| `AddrFiles.ReadBuckets` | src/addrman.h:396-412 | restores the bucket rows where the file version allows it |
| `AddrFiles.Prune` | src/addrman.h:414-424 | drops exactly the entries left without any place, with what the address map has for their addresses, and nothing else |
| `AddrFiles.DeletePlaced` | src/addrman.cpp:119-131 | deleting an idle entry keeps vRandom and the positions inverse, in any state that a file can lead to |
| `AddrFiles.LoadedRebuilds` | src/addrman.h:284-430 | what a consistent manager wrote loads without losing a record to a collision or a reference to a taken slot |
| `AddrFiles.LoadedGood` | src/addrman.h:284-430 | such a file is complete and pruning finds nothing to drop |
| `AddrFiles.Load` | src/addrman.h:335-412 | succeeds exactly on a complete file, whatever its counts, and leaves vRandom and the positions inverse whatever it says |
| `AddrFiles.Unserialize` | src/addrman.h:335-430 | any complete file gives what it loads less the idle entries; what a consistent manager wrote gives that manager under new ids, valid again |
| `AddrFiles.RoundTrip` | src/addrman.h:284-430 | serialising any valid manager and reading it into a fresh one gives a valid isomorphic manager |
| `AddrLoads.LoadedReads` | src/addrman.h:335-412 | whatever a complete file says, both tables and all counters are right after reading it |
| `AddrLoads.LoadedConsistent` | src/addrman.h:335-430 | reading a complete file gives a consistent manager if and only if its counts are not negative and no entry kept shares its address with another one read |
| `AddrLoads.SharedBreaks` | src/addrman.h:359-424 | an address shared with an entry that is kept is lost or leads to only one of the two |
| `AddrLoads.RepeatedRecord` | src/addrman.h:359-424 | a complete file that has one record twice, for every record, key and hash function, is not healthy |
| `AddrFiles.Reset` | src/addrman.h:437-455 | after Clear the manager is consistent if and only if the two maps of entries were empty |
| `AddrFiles.StaleInconsistent` | src/addrman.h:437-455 | entries left behind by Clear have no ids and places, so the state is not consistent |
| `InstantSendSafety.RemoveKeeps` | src/instantx.cpp:648-669 | removing expired candidates keeps the safety invariant, with their outpoints remembered as forgotten |
| `InstantSendSafety.CreateKeeps` | src/instantx.cpp:134-170 | creating or completing a candidate keeps the safety invariant |
| `InstantSendSafety.FinalizeKeeps` | src/instantx.cpp:475-495 | finalizing keeps the safety invariant on every branch of conflict resolution |
| `InstantSendSafety.RequestKeeps` | src/instantx.cpp:87-132 | handling a request keeps the safety invariant |
| `InstantSendSafety.NoteMarks` | src/instantx.cpp:378-408 | after a vote is noted, any other candidate the masternode voted for on the outpoint, and this one, are marked as attacked |
| `InstantSendSafety.AddVoteEffect` | src/instantx.cpp:1119-1125 | adding a vote records that vote and changes no other record and no mark |
| `InstantSendSafety.ProcessVoteKeeps` | src/instantx.cpp:295-423 | handling a vote keeps the safety invariant |
| `InstantSendSafety.OrphanKeeps` | src/instantx.cpp:319-346 | keeping an orphan vote keeps the safety invariant |
| `InstantSendSafety.CastVotesKeep` | src/instantx.cpp:193-292 | voting keeps the safety invariant |
| `InstantSendSafety.StepKeeps` | src/instantx.cpp:49-861 | every event keeps the safety invariant |
| `InstantSendSafety.RunKeeps` | src/instantx.cpp:49-861 | so does every run of events |
| `InstantSendSafety.Overlap` | src/instantx.h:209-210 | two sets that together exceed the quorum share a member |
| `InstantSendSafety.RivalsAttacked` | src/instantx.cpp:378-401 | two transactions with enough votes each on one outpoint are both marked as attacked there |
| `InstantSendSafety.NeverBothReady` | src/instantx.h:209-224 | two different transactions with a common input of which no candidate has been removed are never both ready |
| `InstantSendSafety.LockedExcludes` | src/instantx.cpp:475-545 | while an outpoint is locked by one transaction no other that spends it becomes ready or is reported locked |
| `InstantSendSafety.RunSafe` | src/instantx.cpp:787-810 | in every reachable state, two transactions that share an input of which no candidate has been removed are neither both ready nor both locked |
| `InstantSendForgets.ForgottenBothReady` | src/instantx.cpp:378-408 | after a removal on the outpoint the same is false: a lawful run after which two conflicting transactions are ready and the lock has passed from one to the other |
| `InstantSendSafety.ScanFindsNoLock` | src/instantx.cpp:556-629 | a ready candidate never finds its inputs locked by another, so the branch dropping two completed locks is unreachable |
| `InstantSendSafety.FinalizeOnlyLocks` | src/instantx.cpp:475-545 | finalizing either does nothing or locks all inputs of the transaction, keeping every earlier lock |
| `InstantSendNet.CastVotesOnce` | src/instantx.cpp:193-292 | a masternode casts votes only for the transaction at hand and on outpoints it had not voted on |
| `InstantSendNet.OwnVoteOnce` | src/instantx.cpp:181-292 | the same for the vote a node decides on when a request arrives |
| `InstantSendNet.StepOnward` | src/instantx.cpp:49-861 | votes and locks only grow on outpoints that are not forgotten |
| `InstantSendNet.LocksLast` | src/instantx.cpp:528-545 | a lock, once taken, stays until a candidate on its outpoint is removed |
| `InstantSendNet.NetStepKeeps` | src/instantx.cpp:1007-1044 | every step of the network keeps every node safe and every honest masternode to one vote per outpoint |
| `InstantSendNet.NetRunSound` | src/instantx.cpp:193-292 | so does every run of the network |
| `InstantSendNet.NetSafe` | src/instantx.cpp:1119-1125 | if at most one of the ten masternodes of an outpoint is dishonest and the honest ones' nodes have removed no candidate on it, no two nodes hold ready candidates for different transactions spending it |
| `InstantSendNet.TopTenBounded` | src/instantx.cpp:1023-1036 | distinct ranks give at most ten eligible masternodes per outpoint |
| `InstantSendNodes.IsAllOutPointsReady` | src/instantx.cpp:1175-1185 | the loop answers whether there are locks and all of them are ready |
| `InstantSendNodes.EnoughFor` | src/instantx.cpp:457-473 | the counting loop answers whether there are enough orphan votes for the outpoint |
| `InstantSendNodes.EnoughForAll` | src/instantx.cpp:444-455 | and whether that holds of every input |
| `InstantSendNodes.AddOutPointLocks` | src/instantx.cpp:1156-1159 | adds a lock for each input and disturbs none that is there |
| `InstantSendNodes.HaveSettled` | src/instantx.cpp:613-626 | answers whether the transaction is in a block or has all its inputs unspent |
| `InstantSendLists.NoteWell` | src/instantx.cpp:378-408 | noting a vote keeps every transaction listed only under outpoints of its candidate if and only if the vote names one |
| `InstantSendLists.ProcessVoteWell` | src/instantx.cpp:295-423 | so does handling a vote, exactly if it is not noted or names an outpoint of its candidate |
| `InstantSendLists.RemoveWell` | src/instantx.cpp:648-669 | clean-up keeps it: a removed candidate takes the lists of its outpoints with it |
| `InstantSendLists.CastVotesWell` | src/instantx.cpp:193-292 | a node's own votes keep it |
| `InstantSendLists.StepWell` | src/instantx.cpp:49-861 | every event keeps it if the votes it notes fit, and only then, a retry of several orphan votes apart |
| `InstantSendLists.RunKnown` | src/instantx.cpp:234-253 | over every run from the start in which the votes noted fit, every list names known candidates, so that voting is defined |
| `InstantSendLists.StrayLeavesUnknown` | src/instantx.cpp:234-408 | a run of a request, a stray vote, a confirmation, a new height and a clean-up after which a list names an unknown candidate |
| `InstantSendLists.CastListsKnown` | src/instantx.cpp:270-288 | casting a vote keeps the lists naming known candidates |
| `InstantSendNodes.InstantSendNode.constructor` | src/instantx.h:44-62 | a node starts with no requests, votes or locks |
| `InstantSendNodes.InstantSendNode.IsLockedInstantSendTransaction` | src/instantx.cpp:787-810 | the loop answers whether all outpoints of a known candidate are locked by it |
| `InstantSendNodes.InstantSendNode.LockTransactionInputs` | src/instantx.cpp:528-545 | locks every outpoint not locked yet and changes no lock |
| `InstantSendNodes.InstantSendNode.RemoveExpired` | src/instantx.cpp:654-675 | the loop removes exactly the expired candidates with what is known of their outpoints and requests |
| `InstantSendNodes.InstantSendNode.CheckAndRemoveAll` | src/instantx.cpp:648-725 | removes expired candidates with all that is known of their outpoints and requests, and orphan votes that have timed out; nothing unless the list is synced |
| `InstantSendNodes.InstantSendNode.ScanInputs` | src/instantx.cpp:560-612 | the loop over inputs finds the first conflict: a lock by another transaction or a spend in the memory pool |
| `InstantSendNodes.InstantSendNode.ResolveConflicts` | src/instantx.cpp:556-629 | drops both candidates on a conflicting completed lock, refuses on a pool conflict, and otherwise asks for the transaction to be settled |
| `InstantSendNodes.InstantSendNode.TryToFinalizeLockCandidate` | src/instantx.cpp:475-495 | locks the inputs only of a candidate that is ready and free of conflicts |
| `InstantSendNodes.InstantSendNode.CreateTxLockCandidate` | src/instantx.cpp:134-170 | creates or completes the candidate for a valid request |
| `InstantSendNodes.InstantSendNode.ProcessTxLockRequest` | src/instantx.cpp:87-132 | is the request step |
| `InstantSendNodes.InstantSendNode.NoteVote` | src/instantx.cpp:378-408 | records the transaction under the outpoint and marks rivals as attacked |
| `InstantSendNodes.InstantSendNode.ProcessTxLockVote` | src/instantx.cpp:295-423 | is the vote step |
| `InstantSendNodes.InstantSendNode.ProcessOrphanVote` | src/instantx.cpp:319-346 | is the orphan branch of the vote step |
| `InstantSendNodes.InstantSendNode.ProcessOrphanTxLockVotes` | src/instantx.cpp:425-442 | retries orphan votes one after the other and drops those that are now accepted |
| `InstantSendNodes.InstantSendNode.HaveVoted` | src/instantx.cpp:234-253 | where the lists name known candidates, which every run with fitting votes keeps, answers whether the masternode has voted on the outpoint |
| `InstantSendNodes.InstantSendNode.VoteFor` | src/instantx.cpp:255-288 | records and returns the vote, unless the candidate already has it |
| `InstantSendNodes.InstantSendNode.Vote_` | src/instantx.cpp:193-292 | casts votes on the inputs the masternode is eligible for and has not voted on |
| `InstantSendNodes.InstantSendNode.VoteOn` | src/instantx.cpp:181-292 | votes only for a known candidate whose request was accepted, then tries to finalize it |
| `CheckQueue.BatchFits` | src/checkqueue.h:105-110 | a batch has at least one check and never more than the queue |
| `CheckQueue.BatchIsFair` | src/checkqueue.h:105-110 | a batch of more than one check is the largest that respects the limit and leaves as much for every other thread |
| `CheckQueueSafety.TopSplits` | src/checkqueue.h:111-117 | popping a batch moves checks and loses none |
| `CheckQueueSafety.AddKeeps` | src/checkqueue.h:146-158 | adding keeps every count in step: owed, queued, held and accounted for |
| `CheckQueueSafety.EvaluateKeeps` | src/checkqueue.h:121-125 | an evaluated batch carries its own verdict unless an earlier failure is already known |
| `CheckQueueSafety.FinishArrives` | src/checkqueue.h:79-85 | accounting for a batch keeps every count in step and notifies a waiting master exactly when nothing is owed |
| `CheckQueueSafety.SettleKeeps` | src/checkqueue.h:90-120 | leaving, waiting and taking a batch keep every count in step |
| `CheckQueueSafety.NothingHeld` | src/checkqueue.h:55-60 | when nothing is owed, nothing is queued and no thread holds a check |
| `CheckQueueSafety.NextKeeps` | src/checkqueue.h:69-158 | every step of every thread keeps the invariant; a return carries the verdict of the whole round |
| `CheckQueueSafety.RunInv` | src/checkqueue.h:69-158 | in every run the invariant holds and the round is what was added since the last return |
| `CheckQueueSafety.WaitVerdict` | src/checkqueue.h:139-143 | in every run and interleaving Wait returns true exactly when every check added since the previous Wait passes, with none left over |
| `CheckQueueSafety.FreshIsIdle` | src/checkqueue.h:164-191 | after a Wait and before the next Add IsIdle holds, so the controller assertion succeeds |
| `CheckQueueSafety.IdleMeans` | src/checkqueue.h:164-168 | in every reachable state IsIdle holds exactly if nothing is queued, no thread has a batch and every check of the round passes |
| `CheckQueueSafety.MasterAwaited` | src/checkqueue.h:82-104 | a master waiting without notification waits for a worker that holds a batch |
| `CheckQueueSafety.RankShrinks` | src/checkqueue.h:69-127 | no step but Add makes more work, and evaluating or finishing a batch makes less |
| `CheckQueueSafety.Helpful` | src/checkqueue.h:69-127 | while the master waits some thread can evaluate, finish or return |
| `CheckQueueSafety.WaitCompletes` | src/checkqueue.h:69-143 | from every reachable state a Wait can be brought to its return without further checks or spurious wake-ups |
| `CheckQueueSafety.WaitIsBounded` | src/checkqueue.h:69-143 | in every interleaving without further checks a Wait lasts for no more useful steps than there is work left, and as long as it lasts one is enabled |
| `CheckQueueObject.SharedQueue.constructor` | src/checkqueue.h:130-131 | a new queue is empty, idle and optimistic |
| `CheckQueueObject.SharedQueue.Add` | src/checkqueue.h:145-158 | pushes every check and owes for each |
| `CheckQueueObject.SharedQueue.CleanUp` | src/checkqueue.h:79-89 | accounts for a batch or counts a thread in; notifies exactly when a worker settles the last check |
| `CheckQueueObject.SharedQueue.PopBatch` | src/checkqueue.h:111-117 | moves exactly the top checks off the stack, top first |
| `CheckQueueObject.SharedQueue.Choose` | src/checkqueue.h:91-119 | leaves, waits or takes a batch as the protocol step does |
| `CheckQueueObject.SharedQueue.IsIdle` | src/checkqueue.h:164-168 | for every reachable system the object is the shared part of: true exactly if no thread has work, none is queued and all of the round so far passes |
| `CheckQueueObject.Execute` | src/checkqueue.h:121-124 | the short-circuiting loop answers whether the start was good and every check passes |
| `ArithUint.BaseUint.constructor` | src/arith_uint256.h:32-36 | a new number is zero |
| `ArithUint.BaseUint.Add` | src/arith_uint256.h:135-145 | addition modulo the width, also of a number to itself |
| `ArithUint.BaseUint.Increment` | src/arith_uint256.h:173-180 | adds one modulo the width |
| `ArithUint.BaseUint.Decrement` | src/arith_uint256.h:190-197 | subtracts one modulo the width |
| `ArithUint.BaseUint.Complemented` | src/arith_uint256.h:69-75 | the bitwise complement is the largest value less the number |
| `ArithUint.BaseUint.Negated` | src/arith_uint256.h:77-84 | the negative modulo the width |
| `ArithUint.BaseUint.Subtract` | src/arith_uint256.h:147-151 | subtraction modulo the width |
| `ArithUint.BaseUint.MultiplySmall` | src/arith_uint256.cpp:55-65 | multiplication by a 32-bit number modulo the width; the 64-bit product never overflows |
| `ArithUint.BaseUint.AddRow` | src/arith_uint256.cpp:73-78 | one row of the product, with the carry that is lost |
| `ArithUint.BaseUint.Multiply` | src/arith_uint256.cpp:67-81 | multiplication modulo the width for distinct objects; zero if both are the same object |
| `ArithUint.BaseUint.ShiftLeft` | src/arith_uint256.cpp:21-36 | multiplication by the power of two modulo the width, for every shift |
| `ArithUint.BaseUint.ShiftRight` | src/arith_uint256.cpp:38-53 | floor division by the power of two, for every shift |
| `ArithUint.BaseUint.CompareTo` | src/arith_uint256.cpp:109-119 | the sign of the difference |
| `ArithUint.BaseUint.BitCount` | src/arith_uint256.cpp:171-184 | the position of the highest bit set plus one, or zero |
| `ArithUint.BaseUint.GetLow64` | src/arith_uint256.h:245-249 | the value modulo 2^64 |
| `ArithUint.BaseUint.Assign` | src/arith_uint256.h:88-95 | a 64-bit value is stored exactly |
| `ArithUint.BaseUint.DivideBit` | src/arith_uint256.cpp:98-101 | one bit of the quotient: numerator and quotient stay in balance |
| `ArithUint.BaseUint.LongDivide` | src/arith_uint256.cpp:97-106 | the loop ends with the floor quotient and the remainder |
| `ArithUint.BaseUint.Divide` | src/arith_uint256.cpp:83-107 | refuses zero and clears the object; else the floor quotient, with the remainder left in the numerator |
| `ArithDivision.Aligned` | src/arith_uint256.cpp:95-96 | the aligning shift loses no bit and reaches beyond half the numerator |
| `CompactTargets.OverflowExact` | src/arith_uint256.cpp:217-220 | the overflow flag is set if and only if mantissa * 256^(exponent - 3) is at least 2^256 |
| `CompactTargets.MantissaFits` | src/arith_uint256.cpp:234-240 | the mantissa always fits its 23 bits, and is zero only for zero |
| `CompactTargets.ExponentBound` | src/arith_uint256.cpp:241-241 | the exponent of a 256-bit value is at most 33 |
| `CompactTargets.Fields` | src/arith_uint256.cpp:240-244 | size, mantissa and sign can be read back from the compact number |
| `CompactTargets.TruncatedAgain` | src/arith_uint256.cpp:224-245 | a value truncated to its mantissa has the same exponent and mantissa |
| `CompactTargets.RoundTrip` | src/arith_uint256.cpp:204-245 | decoding an encoded value truncates its low bytes, without overflow and with its sign, and encodes to the same number |
| `CompactTargets.SetCompact` | src/arith_uint256.cpp:204-222 | reads the value exactly modulo 2^256, with exact sign and overflow flags |
| `CompactTargets.GetCompact` | src/arith_uint256.cpp:224-245 | writes the compact form; both assertions of the source hold |
| `SkipHeights.SkipsBack` | src/chain.cpp:67-76 | the skip height is below the height for every height from one on |
| `SkipHeights.LowestOneCleared` | src/chain.cpp:64-65 | n & (n - 1) takes away exactly the lowest power of two |
| `SkipHeights.OddJump` | src/chain.cpp:67-76 | the jump of the height before an even one goes no further than its own or clears at least two bits |
| `SkipHeights.Descent` | src/chain.cpp:78-102 | the walk gets down to the multiple of 2^k between it and its target, or past it, in at most k + 2 steps |
| `SkipHeights.StepsAtMost` | src/chain.cpp:67-102 | walking back from any height below 2^k to any other takes at most k * (k + 5) / 2 steps |
| `BlockTree.BlockIndex.GetAncestor` | src/chain.cpp:78-102 | terminates and equals the walk over parents for every height, null exactly outside the range; no assertion fails; with all skip pointers set it takes exactly the steps counted by `Steps` |
| `BlockTree.BlockIndex.BuildSkip` | src/chain.cpp:109-113 | the skip pointer is the ancestor at the skip height, and the tree stays one |
| `BlockTree.TreeGrows` | src/validation.cpp:2974-2982 | adding an entry on top of a tree gives a tree |
| `ActiveChain.PrefixIsChain` | src/chain.cpp:18-18 | shortening a chain leaves the chain of the block then last |
| `ActiveChain.SameTipSameChain` | src/chain.h:431-435 | the comparison answers whether two chains are equal, and reads past the end exactly if both are empty |
| `ActiveChain.Chain.SetTip` | src/chain.cpp:13-23 | entry h is the ancestor of the new tip at height h for every h, although the walk stops early |
| `ActiveChain.Chain.NextIsChild` | src/chain.h:443-448 | the successor is the entry whose parent the block is; the tip and blocks outside have none |
| `ActiveChain.Chain.FindFork` | src/chain.cpp:53-62 | the highest block common to the chain and the ancestry of the argument, or none |
| `ActiveChain.Chain.Lower` | src/chain.cpp:39-45 | the index and the skip list give the same ancestor |
| `ActiveChain.Chain.GetLocator` | src/chain.cpp:25-51 | ancestors at strictly decreasing heights from the start to genesis, at most 12 plus a base-2 logarithm of the height |
| `ActiveChain.LocatorShape` | src/chain.cpp:25-51 | the offsets of a locator give decreasing heights and the logarithmic bound |
| `Base58.Strchr` | src/base58.cpp:39-41 | the search finds the digit of a character, or nothing |
| `Base58.ConvertBack` | src/base58.cpp:21-109 | rewriting digits to another radix and back, one leading zero for each, is the identity |
| `Base58.EncodeDecode` | src/base58.cpp:21-109 | decoding an encoded byte string gives it back, for every byte string |
| `Base58.DecodeEncode` | src/base58.cpp:21-109 | whatever decodes re-encodes to the trimmed input |
| `Base58.EncodeInjective` | src/base58.cpp:71-109 | no two byte strings share an encoding |
| `Base58.CheckRoundTrip` | src/base58.cpp:121-145 | with a checksum, decoding an encoded string gives it back, for any hash |
| `Base58.CheckAccepts` | src/base58.cpp:130-145 | exactly the checked encodings are accepted, up to surrounding spaces |
| `Base58Codec.EncodeRoom` | src/base58.cpp:80-82 | 138/100 of the bytes plus one is enough room for the base 58 digits |
| `Base58Codec.DecodeRoom` | src/base58.cpp:33-35 | 733/1000 of the digits plus one is enough room for the bytes |
| `Base58Codec.MulAdd` | src/base58.cpp:42-51 | multiplies the buffer and adds a digit, skipping known zeros; the carry assertion cannot fail when the result fits |
| `Base58Codec.EncodeBase58` | src/base58.cpp:71-109 | computes the encoding; the carry assertion never fails |
| `Base58Codec.DecodeBase58` | src/base58.cpp:21-69 | decodes exactly the valid strings, stopping at a null; the carry assertion never fails |
| `Base58Codec.EncodeBase58Check` | src/base58.cpp:121-128 | computes the encoding with its checksum |
| `Base58Codec.DecodeBase58Check` | src/base58.cpp:130-145 | accepts exactly a valid checksum and leaves the output empty otherwise |
| `Bloom.SetFirstKeeps` | src/bloom.cpp:61-72 | after inserting, exactly the old bits and the bits of the key are set |
| `Bloom.InsertHolds` | src/bloom.cpp:61-72 | no key inserted before is lost, and the new one is held |
| `Bloom.HoldsContains` | src/bloom.cpp:88-102 | a held key is found |
| `Bloom.UpdateExact` | src/bloom.cpp:206-217 | re-deriving the flags loses no key if and only if there is a hash function, or no data, or some bit set |
| `Bloom.UpdateForgets` | src/bloom.cpp:206-217 | a filter of one zero byte and no hash function holds any key given to it and loses it when the flags are re-derived |
| `Bloom.RollTracks` | src/bloom.cpp:232-244 | after an insertion each filter is exactly what its window of the latest keys makes of an empty one |
| `Bloom.ResetTracks` | src/bloom.cpp:266-272 | a reset starts the history over |
| `Bloom.RollingWindow` | src/bloom.cpp:252-258 | a query answers exactly as an empty filter given the latest keys would, at least N or all of them |
| `Bloom.RollingRemembers` | src/bloom.cpp:252-258 | each of the last N keys is found |
| `Bloom.RunRemembers` | src/bloom.cpp:219-272 | after any run of insertions and resets each of the last N keys since the last reset is found |
| `BloomFilters.BloomFilter.Insert` | src/bloom.cpp:61-72 | sets the bits of the key, or nothing in a full filter |
| `BloomFilters.BloomFilter.Contains` | src/bloom.cpp:88-102 | answers whether all bits of the key are set, unless full or empty |
| `BloomFilters.BloomFilter.Clear` | src/bloom.cpp:118-123 | clears all bits and both flags |
| `BloomFilters.BloomFilter.Reset` | src/bloom.cpp:125-129 | clears and takes the new tweak |
| `BloomFilters.BloomFilter.UpdateEmptyFull` | src/bloom.cpp:206-217 | the loop finds whether all bytes are full, and whether all are zero |
| `BloomFilters.RollingBloomFilter.constructor` | src/bloom.cpp:219-230 | a new rolling filter has an empty history |
| `BloomFilters.RollingBloomFilter.Insert` | src/bloom.cpp:232-244 | is the rolling step on both filters |
| `BloomFilters.RollingBloomFilter.Contains` | src/bloom.cpp:252-258 | asks the filter that holds the longer history |
| `BloomFilters.RollingBloomFilter.Reset` | src/bloom.cpp:266-272 | resets both filters |
| `CacheMaps.PutLookup` | src/cachemap.h:111-125 | a put value is found; another key keeps its value unless it was the oldest of a full map |
| `CacheMaps.DropLookup` | src/cachemap.h:144-153 | a dropped key is gone and no other |
| `CacheMaps.BoundKept` | src/cachemap.h:119-121 | an insertion keeps the bound if and only if the bound is at least one |
| `CacheMaps.NeverShrinks` | src/cachemap.h:119-121 | a map above its bound never prunes |
| `CacheMaps.RunKeeps` | src/cachemap.h:111-153 | over every run each key is there once and a positive bound is kept |
| `CacheMaps.IndexedOnce` | src/cachemap.h:65-72 | index and list hold the same keys, each once |
| `CacheMaps.RebuiltAgrees` | src/cachemap.h:193-199 | a rebuilt index agrees with the list if and only if the list has no key twice |
| `CacheMaps.RebuiltLast` | src/cachemap.h:193-199 | of a key that a list repeats it has the last item |
| `CacheMaps.CacheMap.constructor` | src/cachemap.h:75-80 | a new map is empty |
| `CacheMaps.CacheMap.Copy` | src/cachemap.h:82-89 | a copy has the same contents and an index of its own |
| `CacheMaps.CacheMap.Insert` | src/cachemap.h:111-125 | updates in place or adds in front and forgets the oldest, with index and list in step |
| `CacheMaps.CacheMap.HasKey` | src/cachemap.h:127-131 | answers whether the key has a value |
| `CacheMaps.CacheMap.Get` | src/cachemap.h:133-142 | returns the value of the key, if any |
| `CacheMaps.CacheMap.Erase` | src/cachemap.h:144-153 | removes the key and nothing else |
| `CacheMaps.CacheMap.PruneLast` | src/cachemap.h:182-191 | removes the oldest entry, if any |
| `CacheMaps.CacheMap.RebuildIndex` | src/cachemap.h:193-199 | for any list, makes the index that has the last item of each key |
| `CacheMaps.CacheMap.Clear` | src/cachemap.h:91-96 | empties the map |
| `CacheMultiMaps.PutMember` | src/cachemultimap.h:92-114 | afterwards the pair is there, and every other pair but an evicted oldest one, each once |
| `CacheMultiMaps.TakenForNew` | src/cachemultimap.h:94-106 | a pair that is there is taken for new if and only if it is the oldest of a full map |
| `CacheMultiMaps.RefusedUnchanged` | src/cachemultimap.h:94-106 | offering a pair that is there leaves the map unchanged if and only if it is not full or holds nothing else |
| `CacheMultiMaps.BoundKept` | src/cachemultimap.h:94-96 | an insertion keeps the bound if and only if the bound is at least one |
| `CacheMultiMaps.DropKeyMember` | src/cachemultimap.h:156-170 | erasing a key removes exactly its pairs |
| `CacheMultiMaps.DropPairMember` | src/cachemultimap.h:172-192 | erasing a pair removes exactly that pair |
| `CacheMultiMaps.RunKeeps` | src/cachemultimap.h:92-192 | over every run each pair is there once and a positive bound is kept |
| `CacheMultiMaps.IndexedPairs` | src/cachemultimap.h:46-53 | index and list hold the same pairs, each once |
| `CacheMultiMaps.RebuiltAgrees` | src/cachemultimap.h:247-259 | a rebuilt index agrees with the list if and only if the list has no pair twice |
| `CacheMultiMaps.RebuiltLast` | src/cachemultimap.h:247-259 | of a pair that a list repeats it has the last item |
| `CacheMultiMaps.Removed` | src/cachemultimap.h:172-192 | taking a pair out of list and index leaves no empty inner map |
| `CacheMultiMaps.CacheMultiMap.constructor` | src/cachemultimap.h:56-61 | a new map is empty |
| `CacheMultiMaps.CacheMultiMap.Insert` | src/cachemultimap.h:92-114 | prunes a full map, then adds the pair unless it is there, and says which |
| `CacheMultiMaps.CacheMultiMap.HasKey` | src/cachemultimap.h:116-120 | answers whether some pair has the key |
| `CacheMultiMaps.CacheMultiMap.EraseKey` | src/cachemultimap.h:156-170 | erases every value of the key, in any order, with index and list in step |
| `CacheMultiMaps.CacheMultiMap.ErasePair` | src/cachemultimap.h:172-192 | erases the pair, and its key from the index with its last value |
| `CacheMultiMaps.CacheMultiMap.PruneLast` | src/cachemultimap.h:221-245 | removes the oldest pair, if any |
| `CacheMultiMaps.CacheMultiMap.RebuildIndex` | src/cachemultimap.h:247-259 | for any list, makes the index that has the last item of each pair |
| `CacheMultiMaps.CacheMultiMap.Clear` | src/cachemultimap.h:72-77 | empties the map |
| `BitStreams.FlattenGroup` | src/bip39.cpp:64-71 | regrouping bits into fields of another width loses nothing |
| `Mnemonic.SplitJoin` | src/bip39.cpp:71-75 | splitting a sentence at its spaces gives back its words |
| `Mnemonic.Rebuilt` | src/bip39.cpp:46-149 | packing the words of a sentence gives back the data followed by the checksum bits |
| `Mnemonic.Reread` | src/bip39.cpp:104-130 | reading the words of a sentence gives back their numbers |
| `Mnemonic.CheckFromData` | src/bip39.cpp:46-149 | the checker accepts a printed sentence if and only if the data has 16, 24 or 32 bytes, every word used has at most nine characters and the last is not empty |
| `Mnemonic.CheckPlain` | src/bip39.cpp:46-149 | with words of one to nine characters the checker accepts a printed sentence if and only if the data has 16, 24 or 32 bytes |
| `Mnemonic.JoinSplit` | src/bip39.cpp:104-112 | joining the words of any sentence gives it back |
| `Mnemonic.SpellBack` | src/bip39.cpp:46-149 | the data that accepted words spell, with its checksum, makes the same words again |
| `Mnemonic.AcceptsExactly` | src/bip39.cpp:80-149 | the checker accepts exactly the sentences printed for 16, 24 or 32 bytes of data in words it can read |
| `MnemonicCodec.WordIndex` | src/bip39.cpp:66-70 | collects eleven bits of the byte stream into a word number |
| `MnemonicCodec.FromData` | src/bip39.cpp:46-78 | prints the sentence; an invalid length gives the empty one |
| `MnemonicCodec.CountWords` | src/bip39.cpp:86-93 | the number of spaces plus one is the number of words |
| `MnemonicCodec.ReadWord` | src/bip39.cpp:106-112 | reads the word at a position, refusing more than nine characters |
| `MnemonicCodec.StoreWord` | src/bip39.cpp:120-125 | appends eleven bits to the buffer |
| `MnemonicCodec.HoldsPacked` | src/bip39.cpp:99-130 | the buffer ends up as the packed form of the words |
| `MnemonicCodec.CompareChecksum` | src/bip39.cpp:134-148 | compares exactly the leading checksum bits that a sentence of that length carries |
| `MnemonicCodec.Check` | src/bip39.cpp:80-149 | true exactly for the sentences accepted |

## Left out

- Coins: best-block propagation, `cachedCoinsUsage`, GetValueIn, GetPriority and AccessByTxid, which add no hard member; the database is a plain map and its writes do not fail.
- Coins.CoinsView.AddCoin: requires an unspent coin, as the source asserts; that the coin is moved out of the caller is not modelled.
- Each coin view is changed only through the one cache above it; two caches over one base are not modelled.
- Address manager: Select_ and GetChance, which are probabilistic and in floating point; bucket functions are fixed functions of key and address.
- Address manager: integer widths of ids, times and reference counts.
- AddrFiles.Load: requires a manager without entries, as the node reads into a new one; the entries of another would keep places outside vRandom, which Delete reads unchecked. Byte-level streams and the file checksum are not modelled: a file is a value of type `Dump`.
- AddrChecks.Check_: does not model that looking up a missing address enters it into the map, with entry 0.
- InstantSend: relay, wallet and script notification, sporks (taken as active), orphan vote rate limiting and proof-of-service bans; `mapTxLockVotes`, which only serves relay.
- InstantSend: signatures and masternode ranks are the parameters `valid`, `legit` and `rank`; confirmation counting enters through the height of an event.
- InstantSendNodes.InstantSendNode.VoteOn: requires the vote lists to name known candidates, because the source looks them up unchecked; `InstantSendLists.RunKnown` says when they do. Where they do not, the runs behind the safety results take an unknown candidate for one without votes.
- InstantSendNodes.InstantSendNode.Vote_: requires the same.
- InstantSendNodes.InstantSendNode.HaveVoted: requires the same of the one list it reads.
- InstantSendNodes.InstantSendNode.CheckAndRemoveAll: does not model `mapTxLockVotes` and the rates of orphan votes, which no lock depends on.
- InstantSendNodes.InstantSendNode.ProcessOrphanTxLockVotes: retries a fixed sequence of votes; the source walks the map itself, from which a clean-up on the way may erase votes that have timed out.
- InstantSendLists.StepWell: says only one way for a retry of several orphan votes, since a clean-up on the way may drop a list that a stray vote has spoilt.
- InstantSendSafety.RunSafe: is about outpoints on which no candidate has been removed, because removal erases voting history; `InstantSendForgets.ForgottenBothReady` shows that it has to be.
- InstantSendNet.NetSafe: is about outpoints on which the honest masternodes' own nodes have removed no candidate, for the same reason.
- CheckQueueSafety.WaitCompletes: shows that completion is always possible; `CheckQueueSafety.WaitIsBounded` that it comes once useful steps are taken. Which thread runs is up to the scheduler.
- Check queue: memory reclamation and the swapping of checks; a check is known by whether it passes, and exceptions in checks are not modelled.
- Arithmetic: getdouble, hexadecimal input and output, and the bitwise operators on whole numbers.
- Block index: file positions, validity flags and difficulty sums; a locator lists blocks where the source lists their hashes.
- ActiveChain.Chain.GetLocator: does not model the overflow of the 32-bit step, which needs heights above 2^30.
- Base58: key and address classes on top of the codec; sizes beyond 32 bits.
- Bloom filters: the sizing formulas, which are in floating point, IsRelevantAndUpdate, which needs script parsing, and serialization.
- Cache maps: Get and GetAll of the multimap, whose order is that of the value type, copies of the multimap, and serialization.
- Mnemonics: ToSeed and Generate, which only call into the cryptographic library.
- HTTP, RPC, wallet, governance, script, scheduling and start-up code of the repository.
