# Verified models of RocksDB's block cache

This project models the block cache in `rocksdb/cache/` and proves properties of the model in Dafny. It has
four parts.

**HyperClockCache, Auto table.** A linear-hashing table whose chains live inside one array of slots. It grows
one slot at a time by splitting a chain in place while other threads keep reading it and keep pushing entries
at its head.

- `LinearHashing`: the packed length word, the home of a hash, and what growing by one slot moves.
- `SplitModel`, `SplitReaders`, `ChainSplit`: `SplitForGrow` as an imperative method over the slot array, in
  which every atomic load, store and compare-exchange is one step and any number of pushes by other threads
  may take effect between two steps. A *view* (published or not, two frontiers, the entries pushed since)
  explains memory at every moment.
- `SplitLookup`, `SplitMiss`: a lookup that walks during such a split, reading each link and each metadata word
  at any later moment while entries become visible, invisible or under construction; and when it can miss.
  `LookupEnds`: such a lookup comes to an answer, and to the right one, once the other threads stop.
- `GrowProtocol`: any number of threads that grow the table at once: taking grow homes, waiting for the split
  that feeds theirs, splitting out of order, and publishing the length without waiting. `GrowEnds`: they all
  finish.
- `ChainPurge`: `PurgeImplLocked`, which unlinks entries from one locked chain and may clock-update the others,
  with other threads pushing, claiming and touching entries between any two steps.
- `AutoProbe`, `AutoChains`, `AutoTable`: the whole table with one thread at work: insert, lookup with a length
  read at any time in the past, grow, release, erase, evict. Insert, too, may start from such a length.

**HyperClockCache, slots and Fixed table.**

- `SlotProtocol`: the metadata word of one slot, with any number of threads racing on it.
- `FixedProbe`, `Displacements`: double hashing, and the `displacements` counts under any interleaving.
  `InsertEnds`: inserting and freeing end, and where.
- `FixedTable`: the table with one thread at work, as a class over its slot array.
- `ClockTurns`, `References` (both tables): what clock updates do to a metadata word and how often the pointer
  comes by; what holding references means over any history of operations.
- `UsageAccounting`: `usage_`, `occupancy_` and `standalone_usage_` modulo 2^64 under any interleaving.
  `UsageDecisions`: what a thread that charges for an entry decides when nobody interferes.

**LRU shard.** `LruTable` is the chained hash table over heap handles, `LruList` the circular list with three
priority pools, `LruBooks` who is on the list, in the table or referenced, and `LruShard` the shard as a class.

**Cache reservation manager.** `Reservation`: rounding to dummy entries, delayed decrease, the handle API and
the concurrent wrapper's deltas.

Modelling conventions. Atomic operations are sequentially consistent steps. Words are records of their bit
fields (`Slots`). What other threads do is either an arbitrary script consumed between steps (`ChainSplit`,
`ChainPurge`) or a transition system over threads whose runs are quantified over (`SlotProtocol`,
`Displacements`, `UsageAccounting`, `GrowProtocol`). Hashes and keys are given; values, deleters and
allocators do not appear. Whether the cache accepts an insertion is a parameter of `Reservation`.

Where the code and its comments differ, the model follows the code:

- The Auto lookup's first loop indexes the array with the end mark of a link that is not an end, so it inspects
  slot 0 each time (`AutoTable.Table.FastLookup`); the result of `Lookup` is right all the same.
- `LinearHashing.RoundTrip`: the length word loses the upper bits of a threshold of 2^56 or more.
- `SplitMiss.MissExactly`: a lookup steps over an entry under construction as if that were always safe. During a
  split it can thereby leave its chain behind and miss an entry that is there all the time. The lemma tells in
  which chains this can happen; `SplitLookup.LookupNeverMisses` covers everything else.
- `AutoChains.BlindFor`: an insert whose length is one behind may, in a table of a few slots, give up with the
  last slot still free (`AutoTable.Table.DoInsert`, with `AutoChains.BlindCase` as an example).
- `UsageAccounting.CapacityChange`: lowering the capacity below what is in use, or changing it while another
  thread is about to use the old one, can take `usage_` below zero for a while, that is, close to 2^64
  (`LoweredCapacity`, `RaisedCapacity`).
- `Reservation.DeltasAddUp`: decreases clamped at zero are never made up for.

## Model

| member | source | states |
|---|---|---|
| `LinearHashing.Decoded` | `rocksdb/cache/clock_cache.cc:1675-1705` | which minimum shift and which threshold the encoded word gives back, for every length below 2^64 |
| `LinearHashing.RoundTrip` | `rocksdb/cache/clock_cache.cc:1675-1705` | decoding gives the encoded length back if and only if the part above the largest power of two is below 2^56 |
| `LinearHashing.RoundTripFails` | `rocksdb/cache/clock_cache.cc:1695-1705` | a concrete length that does not round-trip |
| `LinearHashing.HomeAndShiftAgree` | `rocksdb/cache/clock_cache.cc:1724-1732` | home and shift computed from the length word are those of the used length |
| `LinearHashing.HomeInRange` | `rocksdb/cache/clock_cache.cc:1724-1732` | every hash has a home below the used length, under exactly the shift recorded on that home's head |
| `LinearHashing.GrowMoves` | `rocksdb/cache/clock_cache.cc:2165-2171` | growing from L to L+1 moves exactly the hashes whose home was L - 2^floor(log2 L) and whose next bit is 1, and moves them to L |
| `LinearHashing.GrowHeadShifts` | `rocksdb/cache/clock_cache.cc:2165-2171` | only the two heads of the split change their shift, both to the new one |
| `LinearHashing.StaleHomeIsPassed` | `rocksdb/cache/clock_cache.cc:3003-3027` | from any shift not larger than the right one, the head on the way has a larger shift until the right home is reached, and exactly then stops |
| `LinearHashing.LaggingShift` | `rocksdb/cache/clock_cache.cc:1724-1732` | a home computed for a smaller length never uses more bits than the right one |
| `SplitModel.StepKeepsEntries` | `rocksdb/cache/clock_cache.cc:2282-2388` | no step of a split in progress makes an entry leave the structure |
| `SplitModel.AdvanceKeepsOk` | `rocksdb/cache/clock_cache.cc:2282-2388` | moving the earlier frontier keeps the two-frontier invariant: entries between the frontiers belong to one chain |
| `SplitModel.PushTarget` | `rocksdb/cache/clock_cache.cc:2998-3052` | following the shifts found on heads leads an inserting thread to the head of the right chain at every stage of the split |
| `SplitModel.PushRenders` | `rocksdb/cache/clock_cache.cc:3029-3050` | the head exchange of an insertion makes the entry part of the chain and disturbs nothing else |
| `SplitModel.PublishRenders` | `rocksdb/cache/clock_cache.cc:2470-2510` | with the one chain's head stored, the exchange of the old head publishes both chains at once |
| `SplitModel.AdvanceRenders` | `rocksdb/cache/clock_cache.cc:1784-1816` | storing one new-shift link on the frontier entry advances exactly that frontier |
| `SplitReaders.SharedTail` | `rocksdb/cache/clock_cache.cc:2340-2388` | past its frontier a chain shares the original links to the very end |
| `SplitReaders.ReaderPathNoDup` | `rocksdb/cache/clock_cache.cc:2282-2388` | what a reader follows from either head never repeats an entry |
| `SplitReaders.NothingLost` | `rocksdb/cache/clock_cache.cc:2282-2388` | in every state of a split: before the old head's exchange all entries are reachable from it, afterwards all entries of either hash bit from their own head, over new-shift links up to the frontier and old-shift links after it |
| `ChainSplit.Splitter.constructor` | `rocksdb/cache/clock_cache.cc:2277-2281` | the start of a split: an unlocked chain in memory, the grow home unused |
| `ChainSplit.Splitter.Push` | `rocksdb/cache/clock_cache.cc:2998-3052` | another thread's insertion during the split, at the head its hash selects, keeps the invariant and the rewrite lock |
| `ChainSplit.Splitter.AcquireOld` | `rocksdb/cache/clock_cache.cc:1904-1925` | taking the rewrite lock, which an empty chain does not have |
| `ChainSplit.Splitter.Scan` | `rocksdb/cache/clock_cache.cc:2420-2469` | finds the first entry of each target chain, or shows that one has none, with pushes in between |
| `ChainSplit.Splitter.CasOldHead` | `rocksdb/cache/clock_cache.cc:1873-1900` | the exchange succeeds exactly if nothing was pushed; a failure leaves the lock held on the new head |
| `ChainSplit.Splitter.TryPublish` | `rocksdb/cache/clock_cache.cc:2413-2510` | one attempt publishes both chains, or fails because a push interfered, which may come before any of its steps |
| `ChainSplit.Splitter.PublishSplit` | `rocksdb/cache/clock_cache.cc:2413-2510` | the retries end, with both chains published |
| `ChainSplit.Splitter.UpgradeShifts` | `rocksdb/cache/clock_cache.cc:1784-1816` | gives one chain's links the new shift from its frontier up to the given link |
| `ChainSplit.Splitter.Migrate` | `rocksdb/cache/clock_cache.cc:2510-2600` | alternating between the frontiers ends with both at the end of the chain |
| `ChainSplit.Splitter.ReleaseHead` | `rocksdb/cache/clock_cache.cc:1857-1864` | releasing a lock clears the mark of the head as it is then, keeping entries pushed meanwhile |
| `ChainSplit.Splitter.SplitForGrow` | `rocksdb/cache/clock_cache.cc:2277-2605` | the split ends; at every store of its history no entry is lost to readers; both final chains are the order-preserving partition of the original chain and of the entries pushed meanwhile, every link at the new shift, each end marker at its own home, both locks free, and no other link or head touched |
| `ChainSplit.SplitIsPartition` | `rocksdb/cache/clock_cache.cc:2390-2604` | the two final chains together hold exactly the original and the pushed entries, each only those of its own hash bit |
| `ChainSplit.EntriesStay` | `rocksdb/cache/clock_cache.cc:2277-2605` | at every later moment of a split everything is present that was present before |
| `ChainSplit.AllReadable` | `rocksdb/cache/clock_cache.cc:2282-2388` | every moment of a history that consists of such stores is readable |
| `SplitLookup.StepKeepsLook` | `rocksdb/cache/clock_cache.cc:3148-3289` | whatever other threads do next, a lookup under way is still on its way to the entry |
| `SplitLookup.EveryWalker` | `rocksdb/cache/clock_cache.cc:3148-3289` | from every such position the next link read leads on, past an entry under construction, to a restart with one more hash bit, or to a match, unless an entry under construction lies in the way |
| `SplitLookup.HoldsOwn` | `rocksdb/cache/clock_cache.cc:3221-3289` | a lookup finds a visible match; else it takes hold of every entry of its own chain that it can refer to, and of no other |
| `SplitLookup.LookupNeverMisses` | `rocksdb/cache/clock_cache.cc:3148-3289` | over any history of a split, with the states of all other entries changing at will, a lookup that starts when a visible entry with the key is on the chain does not end without a match, and what it finds is visible and has the key; but for one constellation of entries under construction |
| `SplitMiss.MissExactly` | `rocksdb/cache/clock_cache.cc:3148-3289` | for every chain: some history has a lookup that misses an entry visible throughout if and only if the first entry of the other chain behind it may be under construction and, before it, an entry of its own chain comes before one of the other |
| `SplitMiss.MissNeedsTrap` | `rocksdb/cache/clock_cache.cc:3275-3288` | every history with such a miss has that constellation |
| `SplitMiss.TrapMisses` | `rocksdb/cache/clock_cache.cc:3275-3288` | in that constellation the split and the lookup can be interleaved step by step so that it misses |
| `SplitMiss.FourEntries` | `rocksdb/cache/clock_cache.cc:3275-3288` | a chain of four entries in which a lookup can miss the third |
| `LookupEnds.StepKeepsWanders` | `rocksdb/cache/clock_cache.cc:3148-3289` | where a lookup can be, with or without an entry to find, is kept by every step of every other thread |
| `LookupEnds.Iterates` | `rocksdb/cache/clock_cache.cc:3148-3289` | from every such place one iteration comes to an answer or closer to it: going back never repeats, because links are rewritten from the front |
| `LookupEnds.StillEnds` | `rocksdb/cache/clock_cache.cc:3148-3289` | while memory stands still, a lookup comes to an answer from anywhere, within a bound in the length of the chain; a slot it answers with is visible, on the chain and has the key |
| `LookupEnds.AnswersRightly` | `rocksdb/cache/clock_cache.cc:3084-3289` | at any stage of a split at which the other threads stop: a lookup by the shift of its chain or any smaller one ends within the shifts it lags plus the length of the chain plus 3; it finds an entry if and only if a visible entry of the chain has the key, and else ends with "not found", also on an empty chain |
| `LookupEnds.RunEnds` | `rocksdb/cache/clock_cache.cc:3148-3289` | every lookup of every history, wherever it has got to, has such an end once the other threads stop |
| `GrowProtocol.WaitIsEnough` | `rocksdb/cache/clock_cache.cc:2173-2192` | once the awaited head has the old shift, the old home has exactly the shift that this split replaces |
| `GrowProtocol.LookTells` | `rocksdb/cache/clock_cache.cc:2240-2251` | the head that a catch-up looks at is not ready exactly if the next home is not published |
| `GrowProtocol.StepKeepsInv` | `rocksdb/cache/clock_cache.cc:2150-2275` | every step of every thread keeps the invariant, and the published length never shrinks |
| `GrowProtocol.EveryMoment` | `rocksdb/cache/clock_cache.cc:2150-2275` | in every interleaving: the published length counts only homes whose split is visible, a home has been split exactly for the shifts it went through, no two threads have the same grow home, every home taken is published or under way, and a rewrite lock is held only by a thread rewriting that chain |
| `GrowProtocol.SplitsStartRight` | `rocksdb/cache/clock_cache.cc:2390-2397` | a thread that splits finds on its old home the very shift it replaces, is the only one with its grow home, and its grow home is not yet covered by the published length |
| `GrowProtocol.PublishedHome` | `rocksdb/cache/clock_cache.cc:2204-2222` | a published length gives every hash a home in use whose head has at least the implied shift |
| `GrowProtocol.FallsForward` | `rocksdb/cache/clock_cache.cc:3007-3022` | if a head has gone past the shift, the home split off then is in use, and the home under one more bit is reached rightly |
| `GrowProtocol.NeverTooEarly` | `rocksdb/cache/clock_cache.cc:3003-3027` | an operation that starts from a length published at any time and reads heads at any later times never meets an unused home or a smaller shift than its own |
| `GrowProtocol.WaitsForSmaller` | `rocksdb/cache/clock_cache.cc:2173-2192` | a grow that waits for a shift waits for a smaller grow home that some thread has under way |
| `GrowProtocol.NoDeadlock` | `rocksdb/cache/clock_cache.cc:2150-2275` | in every reachable state with an operation under way, some operation under way can make a step |
| `GrowEnds.OwnStep` | `rocksdb/cache/clock_cache.cc:2150-2275` | every step of an operation, including a failed exchange of the length, brings it closer to its end |
| `GrowEnds.StepsBounded` | `rocksdb/cache/clock_cache.cc:2150-2275` | in any interleaving a thread makes a bounded number of steps of its own before its operation is over |
| `GrowEnds.CatchUpEnds` | `rocksdb/cache/clock_cache.cc:2228-2263` | a catch-up, from any moment on, never waits and ends within a bound in its grow home; it has then published every length it could: its own home is covered, or the home numbered by the length is not published |
| `GrowEnds.RunsEnd` | `rocksdb/cache/clock_cache.cc:2150-2275` | only finitely many steps can be made, in any order, before another operation begins |
| `GrowEnds.AllFinish` | `rocksdb/cache/clock_cache.cc:2150-2275` | from every moment of every run the operations under way can all finish |
| `GrowEnds.StuckAtRest` | `rocksdb/cache/clock_cache.cc:2150-2275` | and where no step is left they have |
| `GrowEnds.TakesNextHome` | `rocksdb/cache/clock_cache.cc:2150-2160` | a grow takes the next home, and is refused exactly if the array has none left |
| `GrowEnds.AllPublished` | `rocksdb/cache/clock_cache.cc:2150-2225` | at rest every home that was taken is in use |
| `GrowProtocol.StopsShort` | `rocksdb/cache/clock_cache.cc:2228-2263` | a catch-up stops short of the home it knows if and only if the next home is not published yet |
| `GrowProtocol.UpToDate` | `rocksdb/cache/clock_cache.cc:2194-2263` | over every run in which no catch-up stops short: whenever no thread is growing, the published length counts exactly the homes in use |
| `GrowProtocol.LengthLags` | `rocksdb/cache/clock_cache.cc:2194-2214` | a run with a catch-up that stops short, after which no thread is growing and the published length is below the number of homes in use |
| `ChainPurge.ChainedPush` | `rocksdb/cache/clock_cache.cc:3029-3050` | an insertion at the head gives the chain with the new entry in front and keeps the lock mark |
| `ChainPurge.ChainedCut` | `rocksdb/cache/clock_cache.cc:2683-2712` | one store unlinks a run of entries and leaves the rest in order, with shift and end marker unchanged |
| `ChainPurge.Purger.Act` | `rocksdb/cache/clock_cache.cc:2998-3052` | what another thread may do while the chain is locked: push an entry, claim one, touch one |
| `ChainPurge.Purger.ClockUpdate` | `rocksdb/cache/clock_cache.cc:97-156` | purgeable or evicted exactly as the word says, counted once, a referenced entry met counted as such; without other threads the word is what one clock update makes of it |
| `ChainPurge.Purger.Skip` | `rocksdb/cache/clock_cache.cc:2683-2689` | links a kept entry past the entries to be purged |
| `ChainPurge.Purger.CasHead` | `rocksdb/cache/clock_cache.cc:2690-2712` | drops entries at the head, or fails because of a push and starts over from the new head |
| `ChainPurge.Purger.PurgeImplLocked` | `rocksdb/cache/clock_cache.cc:2618-2737` | the walk ends; everything under construction on entry is unlinked; each evicted entry is reported once, counted with its charge and unlinked; entries are otherwise kept, including those pushed meanwhile; without other threads every entry that stays was clock-updated exactly once, and the referenced ones met were counted |
| `ChainPurge.Purger.Purge` | `rocksdb/cache/clock_cache.cc:2748-2836` | the same from an unlocked chain to an unlocked chain: every entry that stays shareable is on it, in the original order |
| `ChainPurge.Purger.SetLock` | `rocksdb/cache/clock_cache.cc:1857-1864` | taking or releasing the rewrite lock of a non-empty chain changes no entry |
| `ChainPurge.Purger.Outcome` | `rocksdb/cache/clock_cache.cc:2748-2836` | without other threads: no head or link of another chain changed, and no entry off the chain |
| `ChainPurge.Purger.OneTick` | `rocksdb/cache/clock_cache.cc:2748-2836` | without other threads: exactly the expired entries of the chain are evicted and reported, and every other word is what one clock update makes of it |
| `AutoProbe.IncrementInRange` | `rocksdb/cache/clock_cache.cc:2938-2948` | the golden-ratio increment is at least 1 and below the length, for every hash and every length from 2 up |
| `AutoProbe.IncrementIsGolden` | `rocksdb/cache/clock_cache.cc:2938-2948` | it is within two percent of the length, and one slot, of the golden ratio |
| `AutoProbe.FirstReturn` | `rocksdb/cache/clock_cache.cc:2949-2975` | jumps are back at the start after length/gcd steps and not before |
| `AutoProbe.Covered` | `rocksdb/cache/clock_cache.cc:2949-2995` | shifting the start by one after each circle reaches every slot within gcd circles |
| `AutoProbe.EnoughCircles` | `rocksdb/cache/clock_cache.cc:2976-2995` | a search that gives up has made at least that many circles, also if its count began in a shorter table, unless it jumps over half the table from a count two above the length |
| `AutoProbe.FirstCircles` | `rocksdb/cache/clock_cache.cc:2976-2982` | the search turns to a newer length after at most as many circles as cover the shorter table |
| `AutoProbe.LastSlot` | `rocksdb/cache/clock_cache.cc:2949-2995` | jumps over half the table reach the last slot one circle early, unless they start at either half |
| `AutoProbe.LastSlotMissed` | `rocksdb/cache/clock_cache.cc:2949-2995` | and otherwise do not |
| `AutoChains.OneChain` | `rocksdb/cache/clock_cache.cc:2035-2082` | a slot is on the chain of a home if and only if it is populated and that is its home |
| `AutoChains.TableMeta` | `rocksdb/cache/clock_cache.cc:1735-1780` | changing the metadata of a slot that stays populated, or stays empty, keeps the table in order |
| `AutoChains.LinkRead` | `rocksdb/cache/clock_cache.cc:3148-3289` | what a lookup reads next: while its shift lags, a newer shift; then link by link the chain of the key's home |
| `AutoChains.LinkedIn` | `rocksdb/cache/clock_cache.cc:2998-3052` | linking a filled slot at its home's head keeps every populated slot on exactly its home's chain |
| `AutoChains.SplitEnds` | `rocksdb/cache/clock_cache.cc:2277-2605` | after a split the table is in order for one more home |
| `AutoChains.PurgedOne` | `rocksdb/cache/clock_cache.cc:2618-2737` | after a purge of one chain the table is in order but for marking the taken entries empty, and the chain is what was not taken |
| `AutoChains.AllTried` | `rocksdb/cache/clock_cache.cc:2926-2995` | as many circles as the gcd have tried every slot in use |
| `AutoChains.TriedInTwo` | `rocksdb/cache/clock_cache.cc:2926-2995` | a search that began with a shorter length, turned to the one in effect and gives up has tried every slot, or every slot but the last if it is blind |
| `AutoChains.BlindToLast` | `rocksdb/cache/clock_cache.cc:2926-2995` | a blind search never looks at the last slot |
| `AutoChains.BlindCase` | `rocksdb/cache/clock_cache.cc:2926-2995` | a concrete hash and two lengths with such a search |
| `AutoChains.AllGone` | `rocksdb/cache/clock_cache.cc:3499-3515` | after four passes of the clock no entry is left that was unreferenced at the start |
| `AutoChains.ExactLife` | `rocksdb/cache/clock_cache.cc:97-156` | over any run: an unreferenced visible entry survives as many visits to its home as its countdown says, but three at most, and is reported with the next one; an invisible one goes with the first; a referenced one stays as it is |
| `AutoChains.InsertedLife` | `rocksdb/cache/clock_cache.cc:2838-3053` | a new entry stays while its handle is held; without one it survives one visit less than its initial countdown, but three at most |
| `AutoChains.TourOnce` | `rocksdb/cache/clock_cache.cc:3479-3488` | a clock step visits once each home whose index falls into its range under the mask, and no other |
| `AutoChains.ScheduleVisits` | `rocksdb/cache/clock_cache.cc:3454-3497` | a run that sees the whole table comes by every home once in each pass |
| `AutoChains.MaskFollows` | `rocksdb/cache/clock_cache.cc:3462-3470` | the mask is that of the length as soon as the pointer is back at the beginning |
| `AutoTable.Table.constructor` | `rocksdb/cache/clock_cache.cc:1964-2007` | the initial heads make an empty table in order |
| `AutoTable.Table.FastLookup` | `rocksdb/cache/clock_cache.cc:3107-3146` | inspects slot 0 only; a hit is a visible match and holds one reference, otherwise no entry changed |
| `AutoTable.Table.MatchAndRef` | `rocksdb/cache/clock_cache.cc:1735-1780` | keeps one reference on a visible match or on an entry of the given home, and otherwise changes no entry |
| `AutoTable.Table.FullLookup` | `rocksdb/cache/clock_cache.cc:3148-3289` | the careful walk returns a match exactly when there is one, from any lagging length, with one reference on it and no other change |
| `AutoTable.Table.Lookup` | `rocksdb/cache/clock_cache.cc:3055-3289` | returns a visible match if and only if one exists, with a length read any number of completed grows ago, takes exactly one reference to the result, and changes no entry otherwise |
| `AutoTable.Table.TryInsert` | `rocksdb/cache/clock_cache.cc:307-315` | fills the slot exactly if it is empty, and boosts a visible match |
| `AutoTable.Table.Circles` | `rocksdb/cache/clock_cache.cc:2950-2995` | jumps within the given length: ends in an empty slot or at a match, which is on the path the jumps take, or after the first circle at whose end the count has come to the limit, all circles tried |
| `AutoTable.Table.GoldenSearch` | `rocksdb/cache/clock_cache.cc:2938-2995` | from any lagging length: ends in an empty slot, at a match, or having tried every slot in use; a blind search gives up if and only if every slot but the last is taken, none of them by a match |
| `AutoTable.Table.ProbeOn` | `rocksdb/cache/clock_cache.cc:2926-2995` | the same from the home on, four slots one by one first |
| `AutoTable.Table.FindSlot` | `rocksdb/cache/clock_cache.cc:2881-2996` | the same for the whole search, with the home and a slot named as likely empty first |
| `AutoTable.Table.Link` | `rocksdb/cache/clock_cache.cc:2998-3052` | puts the entry at the head of its home's chain, from any lagging length |
| `AutoTable.Table.DoInsert` | `rocksdb/cache/clock_cache.cc:2838-3053` | from any lagging length, keeps the table in order; the entry is visible in a slot that was empty, with its key and charge, a release count one below its countdown and exactly the reference asked for, and nothing else changes; or both counts of a match rise by the countdown; or nothing changed, and then every slot in use is taken by other entries, or every slot but the last if the search was blind, in which case that is always so; no other reference comes or goes |
| `AutoTable.Table.Grow` | `rocksdb/cache/clock_cache.cc:2150-2225` | keeps the table in order for one more home, changes no entry, and fails exactly at the end of the array |
| `AutoTable.Table.CurrentHome` | `rocksdb/cache/clock_cache.cc:2799-2824` | finds the key's home and the shift in effect from any lagging length |
| `AutoTable.Table.Remove` | `rocksdb/cache/clock_cache.cc:3291-3296` | unlinks exactly the owned entry from its home's chain |
| `AutoTable.Table.TryEraseHandle` | `rocksdb/cache/clock_cache.cc:3298-3341` | frees the entry exactly if nobody else refers to it, else hides it if asked to; keeps the table in order |
| `AutoTable.Table.Release` | `rocksdb/cache/clock_cache.cc:3343-3375` | frees exactly on the last reference of an invisible entry or on request; else a useful release raises the release count and a useless one lowers the acquire count; exactly that reference goes |
| `AutoTable.Table.Erase` | `rocksdb/cache/clock_cache.cc:3389-3401` | afterwards no visible entry has the key; those that had are gone if unreferenced and else invisible; no other entry and no reference changes; the loop ends |
| `AutoTable.Table.PurgeHome` | `rocksdb/cache/clock_cache.cc:2748-2836` | every entry of the home has had one clock update; exactly those that expired are reported, once, with their charge |
| `AutoTable.Table.SweepHomes` | `rocksdb/cache/clock_cache.cc:3479-3488` | every entry has had as many clock updates as the tour of this step visits its home |
| `AutoTable.Table.EvictStep` | `rocksdb/cache/clock_cache.cc:3462-3497` | the same, with exactly the expired entries freed and the table in order |
| `AutoTable.Table.Evict` | `rocksdb/cache/clock_cache.cc:3426-3524` | a run ends; every entry has had as many clock updates as the schedule for its clock values, mask and length visits its home; exactly the expired ones are freed and counted in `freed_count` and `freed_charge`, and `seen_pinned_count` is what the tour met; it goes on exactly until a step gives a reason to stop; stopped by its clock bound with the whole table in sight and the mask up to date, it has freed every entry that was unreferenced at its start; no reference comes or goes |
| `SlotProtocol.CorrectionIsInvisible` | `rocksdb/cache/clock_cache.cc:158-229` | near-overflow correction keeps the number of references and the effective countdown, and brings both counters back into range |
| `SlotProtocol.StepKeepsInv` | `rocksdb/cache/clock_cache.cc:97-305` | every step of every thread on a slot keeps the invariant |
| `SlotProtocol.EveryMoment` | `rocksdb/cache/clock_cache.h:137-179` | in every interleaving: both 30-bit counters in range, one owner exactly under construction, and acquires minus releases of a shareable slot equal the references held, whatever stray increments came before |
| `SlotProtocol.TakenUnreferenced` | `rocksdb/cache/clock_cache.cc:3298-3341` | an entry is taken for freeing only when nobody but the taker holds a reference |
| `SlotProtocol.ReferencePins` | `rocksdb/cache/clock_cache.h:137-179` | while a thread holds a reference the entry stays, with its key |
| `SlotProtocol.InvisibleForGood` | `rocksdb/cache/clock_cache.h:137-179` | an entry that is not visible never becomes visible again; only a later entry of the slot can be |
| `SlotProtocol.ClockIsTick` | `rocksdb/cache/clock_cache.cc:129-140` | a clock exchange that succeeds does to the word what one clock update does |
| `SlotProtocol.LivesItsCountdown` | `rocksdb/cache/clock_cache.cc:97-156` | in any interleaving an entry has had at least as many successful clock updates as its initial countdown, less one if a reference was kept, before its counts are down to zero; exactly as many if it was never released as used |
| `FixedProbe.ProbesDiffer` | `rocksdb/cache/clock_cache.cc:1047-1081` | no slot is probed twice within 2^k steps, for any odd increment |
| `FixedProbe.ProbeReturns` | `rocksdb/cache/clock_cache.cc:1047-1081` | after 2^k steps the probe is back at its first slot |
| `FixedProbe.ProbeCovers` | `rocksdb/cache/clock_cache.cc:1047-1081` | every slot is probed within 2^k steps |
| `Displacements.StepKeepsInv` | `rocksdb/cache/clock_cache.cc:780-825` | every step of any thread keeps counts and ownership exact, looking at a slot and counting past it being two steps |
| `Displacements.EveryMoment` | `rocksdb/cache/clock_cache.cc:1047-1091` | in every interleaving each slot's count, modulo 2^32, is the number of entries, inserts under way and pending rollbacks whose probe path passes over it, and a slot under construction has one owner |
| `Displacements.DisplacedAhead` | `rocksdb/cache/clock_cache.cc:1047-1081` | while an entry is in the table the counts before it on its probe path are positive |
| `Displacements.LookupGoesOn` | `rocksdb/cache/clock_cache.cc:827-886` | in any interleaving, when a lookup reads the count of a slot before an entry that stays visible, the count is positive and it has probes left |
| `Displacements.LookupFinds` | `rocksdb/cache/clock_cache.cc:827-886` | in any interleaving, a lookup whose examinations and count reads happen at any moments in order ends in a match, if an entry with the key is visible throughout |
| `InsertEnds.OwnStep` | `rocksdb/cache/clock_cache.cc:780-825` | every step of an insert or a removal brings it closer to its end, whatever the table has come to look like |
| `InsertEnds.NeverWaits` | `rocksdb/cache/clock_cache.cc:1047-1091` | a thread with an operation under way can always make a step |
| `InsertEnds.StepsBounded` | `rocksdb/cache/clock_cache.cc:1047-1091` | in any interleaving an insert takes at most three times as many steps of its own as there are slots |
| `InsertEnds.Finishes` | `rocksdb/cache/clock_cache.cc:780-825` | alone from any moment on, an insert ends with the entry in the first free slot of the rest of its probe sequence, or, if a match comes first or there is none, with no slot changed |
| `FixedTable.NoneBeyond` | `rocksdb/cache/clock_cache.cc:1047-1081` | if the probes so far found no visible entry with the key and the last count is zero, there is none |
| `FixedTable.Determined` | `rocksdb/cache/clock_cache.h:583-596` | what the slots hold settles every displacement count |
| `ClockTurns.LifeIsExact` | `rocksdb/cache/clock_cache.cc:97-156` | the word after any number of clock updates, in closed form: a visible entry survives as many as its countdown says, but three at most, and goes with the next one; an invisible one goes with the first; a referenced one never changes |
| `References.PinnedThroughout` | `rocksdb/cache/clock_cache.h:137-179` | over any history of lookups, inserts, releases, erasures, grows and eviction runs of either table, an entry stays in its slot, with its key and charge, as long as references to it are held, and the slot counts exactly those |
| `FixedTable.RolledExpired` | `rocksdb/cache/clock_cache.cc:1104-1148` | after three rounds every entry that was unreferenced and invisible or with a countdown below 3 is gone |
| `FixedTable.InsertedLife` | `rocksdb/cache/clock_cache.cc:780-825` | a new entry stays while its handle is held; without one it survives exactly as many turns of the clock as its initial countdown |
| `FixedTable.SkippedAll` | `rocksdb/cache/clock_cache.cc:780-825` | a probe sequence that skipped every slot has seen a full table without a match |
| `FixedTable.Table.constructor` | `rocksdb/cache/clock_cache.cc:717-739` | an empty table with exact counts |
| `FixedTable.Table.MatchAndRef` | `rocksdb/cache/clock_cache.cc:827-886` | takes a reference exactly on a visible match |
| `FixedTable.Table.Lookup` | `rocksdb/cache/clock_cache.cc:827-886` | returns a visible match if and only if there is one in the whole table, despite its early stop, takes exactly one reference to it, and changes no entry otherwise |
| `FixedTable.Table.Rollback` | `rocksdb/cache/clock_cache.cc:1083-1091` | takes back exactly the counts of one probe path |
| `FixedTable.Table.TryInsert` | `rocksdb/cache/clock_cache.cc:307-315` | fills an empty slot, or boosts a match |
| `FixedTable.Table.DoInsert` | `rocksdb/cache/clock_cache.cc:780-825` | puts the entry, visible, with its key and charge, the acquire count at the countdown and exactly the reference asked for, in the first empty slot of its probe sequence unless a match comes first, whose two counts then rise by the countdown; fails only if every slot is populated, changing nothing; displacement counts stay exact and no other reference comes or goes |
| `FixedTable.Table.Release` | `rocksdb/cache/clock_cache.cc:888-957` | frees exactly on the last reference of an invisible entry or on request; else a useful release raises the release count and a useless one lowers the acquire count; exactly that reference goes |
| `FixedTable.Table.EraseAt` | `rocksdb/cache/clock_cache.cc:971-1026` | one slot of Erase |
| `FixedTable.Table.Erase` | `rocksdb/cache/clock_cache.cc:971-1026` | afterwards no visible entry has the key, every other slot holds what it held, and no reference changes |
| `FixedTable.Table.UpdateAt` | `rocksdb/cache/clock_cache.cc:97-156` | one clock update and its tally |
| `FixedTable.Table.Evict` | `rocksdb/cache/clock_cache.cc:1104-1148` | a run ends; every slot has had as many clock updates as the clock values give it turns; freed charge and count are exactly what was removed, and the referenced entries counted are those the clock came by; it goes on exactly until a batch gives a reason to stop; stopped by its clock bound it has removed every entry that was unreferenced and invisible or with a countdown below 3; no reference comes or goes |
| `ClockTurns.TurnsTimes` | `rocksdb/cache/clock_cache.cc:1104-1148` | k rounds of the clock give every position at least k turns |
| `UsageAccounting.StepBalances` | `rocksdb/cache/clock_cache.cc:401-550` | every step changes each counter by what it changes about the true sum, up to wrap-around |
| `UsageAccounting.StepConserves` | `rocksdb/cache/clock_cache.cc:579-681` | every step of every operation keeps all counters equal to the true sums |
| `UsageAccounting.EveryMoment` | `rocksdb/cache/clock_cache.cc:401-681` | in every interleaving `usage_`, `occupancy_` and `standalone_usage_` are, modulo 2^64, what is in the table, standalone, metadata, reserved and not yet settled |
| `UsageAccounting.AtRest` | `rocksdb/cache/clock_cache.cc:579-681` | with no operation under way the counters tell exactly what is there |
| `UsageAccounting.NeverOverfull` | `rocksdb/cache/clock_cache.cc:579-681` | in every interleaving at most as many slots are populated as the occupancy limit says |
| `UsageAccounting.WithinCapacity` | `rocksdb/cache/clock_cache.cc:437-491` | with a strict limit `usage_` of the Fixed table is exact and never exceeds the capacity in any interleaving, with a fixed capacity or one changed only as `CapacityChange` allows |
| `UsageAccounting.CapacityChange` | `rocksdb/cache/clock_cache.cc:437-491` | a change of capacity while no thread is between reading it and acting on it keeps that bound if and only if it is not below `usage_` (and below 2^63) |
| `UsageAccounting.RaisedCapacity` | `rocksdb/cache/clock_cache.cc:437-491` | a run in which the capacity is raised between another thread reading it and using it, and `usage_` wraps below zero |
| `UsageAccounting.LoweredCapacity` | `rocksdb/cache/clock_cache.cc:437-491` | a run in which the capacity is lowered and `usage_` wraps below zero |
| `UsageDecisions.InsertBegins` | `rocksdb/cache/clock_cache.cc:588-594` | an insertion counts itself in first and must evict exactly if the table was at its occupancy limit |
| `UsageDecisions.StrictTooLarge` | `rocksdb/cache/clock_cache.cc:437-446` | with a strict limit, an entry above the capacity is refused at once |
| `UsageDecisions.StrictGrabs` | `rocksdb/cache/clock_cache.cc:447-470` | any other entry takes what is left of the capacity, and needs an eviction run exactly for the rest, or if the table is too full |
| `UsageDecisions.StrictAnswer` | `rocksdb/cache/clock_cache.cc:470-496` | after a run that freed so much it is granted exactly if that was enough; `usage_` is then what it was, less what was freed, plus the entry if granted |
| `UsageDecisions.LooseBegins` | `rocksdb/cache/clock_cache.cc:499-540` | without a strict limit, what the eviction run is asked for |
| `UsageDecisions.LooseAnswer` | `rocksdb/cache/clock_cache.cc:540-550` | an insertion is refused only if the table is too full and nothing was evicted; else it is counted, less what was freed |
| `UsageDecisions.NoDrift` | `rocksdb/cache/clock_cache.cc:499-540` | an insertion whose run frees what it was asked for does not raise a usage at the capacity, and lowers one above it |
| `UsageDecisions.FailedEnds` | `rocksdb/cache/clock_cache.cc:604-631` | a refused insertion leaves nothing behind, or a standalone entry counted in full if the caller wants a handle and the limit is not strict |
| `UsageDecisions.NotInsertedEnds` | `rocksdb/cache/clock_cache.cc:650-681` | a charged entry that found no place in the table becomes a standalone entry if the caller wants a handle, and else its charge is taken back |
| `LruTable.SearchDecides` | `rocksdb/cache/lru_cache.cc:75-81` | a search of the key's chain decides whether the map has the key |
| `LruTable.BucketSplits` | `rocksdb/cache/lru_cache.cc:83-114` | doubling the buckets divides each one in two neighbours, by the upper bits of the hash |
| `LruTable.HandleTable.constructor` | `rocksdb/cache/lru_cache.cc:26-32` | an empty table is the empty map |
| `LruTable.HandleTable.FindPointer` | `rocksdb/cache/lru_cache.cc:75-81` | ends at the link to the key's handle, or at the last link of its chain |
| `LruTable.HandleTable.Lookup` | `rocksdb/cache/lru_cache.cc:45-47` | agrees with the map |
| `LruTable.HandleTable.Insert` | `rocksdb/cache/lru_cache.cc:49-63` | updates the map and returns the replaced handle |
| `LruTable.HandleTable.Remove` | `rocksdb/cache/lru_cache.cc:65-73` | removes the key from the map and returns its handle |
| `LruTable.HandleTable.MoveBucket` | `rocksdb/cache/lru_cache.cc:95-109` | moves every handle of one old bucket to its new chain |
| `LruTable.HandleTable.Resize` | `rocksdb/cache/lru_cache.cc:83-114` | doubles the buckets unless at the limit, and changes neither the map nor the element count, whatever the buckets hold |
| `LruList.RemoveOk` | `rocksdb/cache/lru_cache.cc:232-254` | taking any handle out keeps the ring, the three segments, their end marks and the pool counters right |
| `LruList.InsertOk` | `rocksdb/cache/lru_cache.cc:256-296` | putting a handle into any pool keeps them right |
| `LruList.OverflowHighOk` | `rocksdb/cache/lru_cache.cc:298-309` | a high-priority pool over its capacity is not empty, and its oldest handle moves down rightly |
| `LruList.OverflowLowOk` | `rocksdb/cache/lru_cache.cc:310-321` | the same for the low-priority pool |
| `LruShard.Shard.constructor` | `rocksdb/cache/lru_cache.cc:116-143` | an empty shard in order |
| `LruShard.Shard.LruRemove` | `rocksdb/cache/lru_cache.cc:232-254` | the handle leaves the list, and every counter loses its charge |
| `LruShard.Shard.LruInsert` | `rocksdb/cache/lru_cache.cc:256-296` | the handle becomes the newest of the pool its flags and the ratios select |
| `LruShard.Shard.MaintainPoolSize` | `rocksdb/cache/lru_cache.cc:298-321` | ends without reaching the sentinel, with both pools within their capacities and the list order unchanged; no more handles move down than have to: with the last one moved the pool would not fit, and nothing moves if both fit |
| `LruShard.Shard.EvictFromLru` | `rocksdb/cache/lru_cache.cc:323-336` | evicts from the old end exactly as many as needed; then the charge fits or the list is empty |
| `LruShard.Shard.NotifyEvicted` | `rocksdb/cache/lru_cache.cc:338-352` | frees the evicted handles |
| `LruShard.Shard.Free` | `rocksdb/cache/lru_cache.cc:338-352` | a handle is freed at most once, without references and after leaving table and list |
| `LruShard.Shard.SetCapacity` | `rocksdb/cache/lru_cache.cc:354-365` | evicts from the old end down to the new capacity, no further, and leaves exactly the rest in list and map |
| `LruShard.Shard.SetStrictCapacityLimit` | `rocksdb/cache/lru_cache.cc:367-370` | changes the flag only |
| `LruShard.Shard.Lookup` | `rocksdb/cache/lru_cache.cc:430-448` | returns the map's handle with one more reference; an unreferenced one leaves its place on the list; no other handle changes |
| `LruShard.Shard.Ref` | `rocksdb/cache/lru_cache.cc:450-456` | one more reference |
| `LruShard.Shard.SetHighPriorityPoolRatio` | `rocksdb/cache/lru_cache.cc:458-463` | both pools are within their new capacities |
| `LruShard.Shard.SetLowPriorityPoolRatio` | `rocksdb/cache/lru_cache.cc:465-470` | both pools are within their new capacities |
| `LruShard.Shard.Release` | `rocksdb/cache/lru_cache.cc:472-518` | frees exactly on the last reference of an erased entry, over capacity or on request, and else puts the handle back as the newest of its pool; the map loses exactly a freed entry that was in it, and no other reference changes |
| `LruShard.Shard.InsertItem` | `rocksdb/cache/lru_cache.cc:372-428` | evicts exactly as many as needed from the old end; then, in each case the source distinguishes: status, the exact new map, the exact new list with the handle as the newest of its pool and a replaced one taken out of its place, the references, and which handles are freed |
| `LruShard.Shard.Insert` | `rocksdb/cache/lru_cache.cc:548-557` | makes the handle and does the same with it, returning it exactly if asked to and accepted |
| `LruShard.Shard.CreateStandalone` | `rocksdb/cache/lru_cache.cc:559-589` | evicts, then makes a charged, an uncharged or no handle |
| `LruShard.Shard.Erase` | `rocksdb/cache/lru_cache.cc:591-615` | takes the key out of the map; frees the handle now or with its last reference |
| `LruShard.Shard.GetPinnedUsage` | `rocksdb/cache/lru_cache.cc:622-626` | the charge of the referenced handles |
| `LruShard.Shard.EntryStates` | `rocksdb/cache/lru_cache.h:27-48` | in every reachable state an entry is on the list exactly when it is in the table without references, and is not freed |
| `LruShard.Shard.Counters` | `rocksdb/cache/lru_cache.cc:483-496` | in every reachable state the counters are the sums they stand for, and a usage above the capacity implies an empty list |
| `LruShard.Shard.Segments` | `rocksdb/cache/lru_cache.cc:232-321` | in every reachable state the list is bottom, low, high from oldest to newest, linked both ways, with the marks at the segment ends |
| `Reservation.RoundUp` | `rocksdb/cache/cache_reservation_manager.cc:112-127` | the next multiple of the dummy entry size |
| `Reservation.LeastMultiple` | `rocksdb/cache/cache_reservation_manager.h:102-150` | no smaller multiple covers the memory used |
| `Reservation.TargetKept` | `rocksdb/cache/cache_reservation_manager.h:102-150` | the reserved size is a multiple that covers the memory used; it is the least one without delayed decrease, and with it the least one or at most 4/3 of the memory used |
| `Reservation.Manager.constructor` | `rocksdb/cache/cache_reservation_manager.cc:41-48` | nothing reserved |
| `Reservation.Manager.IncreaseCacheReservation` | `rocksdb/cache/cache_reservation_manager.cc:112-127` | succeeds exactly if the cache has room; a failure keeps the handles it got, and reserved size equals the handles held either way |
| `Reservation.Manager.DecreaseCacheReservation` | `rocksdb/cache/cache_reservation_manager.cc:130-147` | releases down to the least multiple |
| `Reservation.Manager.Update` | `rocksdb/cache/cache_reservation_manager.cc:58-85` | succeeds exactly if the cache accepts the entries needed, and then reserves the promised size |
| `Reservation.HandleUser.MakeCacheReservation` | `rocksdb/cache/cache_reservation_manager.cc:88-99` | memory used is the sum of the outstanding handles, also when the cache refused |
| `Reservation.HandleUser.DestroyHandle` | `rocksdb/cache/cache_reservation_manager.cc:102-109` | the sum loses exactly that handle's amount |
| `Reservation.HandleUser.NothingLeft` | `rocksdb/cache/cache_reservation_manager.h:102-182` | once every handle is destroyed nothing stays reserved |
| `Reservation.ConcurrentManager.UpdateBy` | `rocksdb/cache/cache_reservation_manager.h:270-285` | the inner total is the start with all deltas applied in turn |
| `Reservation.DeltasAddUp` | `rocksdb/cache/cache_reservation_manager.h:270-285` | the deltas add up exactly if and only if none of the decreases is clamped at zero |

## Left out

- Weak memory ordering: every atomic operation is sequentially consistent.
- `CorrectNearOverflow` delayed by a preempted thread: in `SlotProtocol` a release and its correction are one step.
- Counters of the one-thread tables (`FixedTable`, `AutoTable`) are unbounded; `SlotProtocol` has their 30-bit widths.
- `CHECK_TOO_MANY_ITERATIONS`, which aborts on very long chains, is dropped.
- SlotProtocol.EveryMoment: assumes fewer than 2^29 - 7 simultaneous references, as the counters do.
- Displacements.DisplacedAhead: needs fewer than 2^32 slots and operations, because the counts are 32 bits wide.
- UsageAccounting.NeverOverfull: assumes that fewer than 2^64 slots and pending inserts exist, so that the counter does not wrap.
- UsageAccounting.WithinCapacity: assumes a capacity below 2^63 that covers the table's metadata; the source asserts the former on every release.
- AutoTable.Table.Evict: the statement about a run stopped by its clock bound needs the mask of the clock pointer to be that of the current length; a run begun under the mask of a smaller table has a smaller bound.
- FixedTable.Table.Evict: tables of at most 2^32 slots; the 64-bit clock pointer does not wrap.
- LookupEnds.RunEnds: nothing is said about a lookup that other threads overtake for ever.
- LookupEnds.AnswersRightly: that the heads on the way have newer shifts is an assumption here, and `GrowProtocol.NeverTooEarly` elsewhere.
- `UsageDecisions` assumes charges, usage and capacity far below 2^64.
- GrowProtocol: chains are reduced to shift and lock of their heads; what the steps of one split do to the chain is `ChainSplit`.
- GrowProtocol: `occupancy_limit_` and the metadata charge that follow the published length.
- ChainSplit.Splitter.Push: an inserting thread's private store and its exchange of the head follow each other with no other step in between.
- ChainSplit.Splitter.AcquireOld: the wait for another holder of the rewrite lock; the split starts with the lock free.
- Unlinking entries of a chain while it is being split, which the rewrite lock excludes unless a chain is found empty; entries may become invisible or be under construction at any time (`SplitLookup`).
- AutoTable.Table.FullLookup: with one thread at work the walk never has to go back to the head after a change under its feet; those branches are in `SplitLookup`.
- AutoTable.Table.GoldenSearch: the length may have grown before the search, but does not grow once more during it.
- AutoTable.Table.FindSlot: a slot named as likely empty may be taken, but not by a visible entry with the key, which the source would boost and then search on.
- AutoTable.Table.DoInsert: the same.
- LruShard.Shard.CreateStandalone: the handle is allocated once its charge is decided.
- LruShard.Shard.InsertItem: the deletion of an entry refused to a caller who wanted its handle is not recorded as freeing.
- LRU sums are unbounded and pool capacities are computed over reals.
- Reservation.RoundUp: sizes are assumed to round up within `size_t`.
- `EraseUnRefEntries`, `ApplyToSomeEntries` and `ApplyToEntriesRange` of every table: one more loop over the same operations.
- `BaseClockTable::Insert` around the table's own insert is modelled for its counters only (`UsageAccounting`).
- Load factors, occupancy limits, hash-bit and length calculations in floating point, `ReportProblems` and statistics.
- Sharding, secondary and compressed caches, `cache_key`, charged caches, helpers, options and benchmark drivers.
- Values, deleters, eviction callbacks, allocators and memory mapping.
- The repository's gem5 scripts, build tools and everything outside `rocksdb/cache/`.
