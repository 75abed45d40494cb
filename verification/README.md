# A verified model of the node's bookkeeping

This project models parts of a Go node of the Avalanche family: the cross-chain shared memory, the
peer tables of the network, the distribution of the genesis supply, the API router's aliases, the
health gauges, the container indexer, bit-range comparison of IDs, the size-bounded cache, and the
database helpers that these rest on. It states what each of them keeps over whole runs, and proves it.

`dafny verify dfyconfig.toml` checks all of it.

## The modules

- `LockProtocol` (LockProtocol.dfy): the reference-counted locks of shared memory as a step machine of
  any number of callers. One step is one point at which the scheduler can switch.
- `ByteStrings` (Bytes.dfy): byte strings, their order, sorting.
- `AtomicState` (AtomicState.dfy): one directed store, a table with tombstones and a trait index.
- `Paging` (Paging.dfy): paginated lookup by trait.
- `SharedMemory` (SharedMemory.dfy): the directed stores of all chain pairs, and Apply.
- `ConcurrentApply` (ConcurrentApply.dfy): concurrent Apply calls with their locks and overlays, as a step
  machine in which a lock has one holder; every call is atomic.
- `LockedApply` (LockedApply.dfy): the two machines joined. Callers take their locks by the protocol's own
  steps; every run refines one of `ConcurrentApply`.
- `Database` (Database.dfy): batches, the versioned overlay, ClearPrefix, 64-bit packing.
- `Network` (Network.dfy): the fields under `peersLock`; each locked region is one step.
- `Freshness` (Freshness.dfy): which IPs the peer tables hold, what is dialled and who is recorded, step by step
  and over whole runs.
- `Genesis` (Genesis.dfy): splitAllocations, FromConfig, InitialSupply and validateConfig.
- `Router` (Router.dfy): routes and aliases, for every alias graph.
- `HealthWorker` (HealthWorker.dfy): checks, tags and gauges.
- `ContainerIndex` (Index.dfy): the index of accepted containers through failures and restarts.
- `Indexer` (Indexer.dfy): when an index is opened, over any sequence of runs on one database.
- `IdBits` (IdBits.dfy): EqualSubset and FirstDifferenceSubset against one bit at a time.
- `SizedLru` (SizedLru.dfy): the cache bounded by size.

Code that updates fields is a class whose methods are tied to a specification function of the old
state; the lemmas about whole runs are about those functions. Where the source is concurrent, a run is
any sequence of steps.

## Where a promise fails

Each of these has a lemma with an input on which it fails, or a family of them, and a lemma with the exact
condition.

- Paging misses the keys that stand before an empty key in the list of every requested trait that they
  hold, because a nil start key is looked up like any other (`Paging.EmptyKeyHidesKeys`,
  `Paging.PaginationReaches`). With a limit of one no call after the first reaches another key
  (`Paging.LimitOneNeverAdvances`).
- A chain that shares memory with itself does not read what it writes (`SharedMemory.ChannelIsShared`).
- splitAllocations returns fewer parts than asked for when the total is zero and more than one part is
  wanted, and FromConfig then indexes out of range, even for a config that passes validation
  (`Genesis.SplitSpec`, `Genesis.FromConfig`, `Genesis.ValidConfigCanPanic`).
- The comment in Track that an unknown node is not being tracked fails exactly in the runs in which
  ManuallyTrack is called for a node that is neither connected, nor tracked, nor known
  (`Network.ManualBreaksTrackInvariant`, `Network.TrackReliesOn`).
- A router that is given an alias twice in one call, or a cycle of aliases, fails to add an endpoint to a base
  that has none of its name; the exact condition is that what the base reaches is a tree
  (`Router.RepeatedIsNoTree`, `Router.ApiRouter.ForceAddRouter`, `Router.ClearIsTree`).
- validateConfig multiplies the stake offset in 64 bits and accepts offsets that do not fit in the stake
  duration when the product wraps (`Genesis.OffsetWraps`, `Genesis.OffsetCheck`).
- A registration makes accurate health gauges wrong exactly if a check that is not an application check names
  a tag twice, or an application check brings a new tag while another application check fails
  (`HealthWorker.RegisterKeepsAccurate`, `HealthWorker.RepeatedTagCountsTwice`,
  `HealthWorker.NewTagMissesFailing`).
- The counter of the size-bounded cache falls short when an overwritten entry does not fit beside the
  entries that are newer, because its old size is subtracted twice (`SizedLru.OverwriteMiscounts`,
  `SizedLru.PutDrifts`).
- EqualSubset and FirstDifferenceSubset disagree beyond the last bit of an ID
  (`IdBits.FirstDifferenceSubset`), and leave out the whole first byte if the range starts below zero
  (`IdBits.EqualSubsetAgrees`).
- GetContainerRange returns empty containers when the end of the range exceeds 64 bits
  (`ContainerIndex.Index.GetContainerRange`), and the index stops standing for what was accepted exactly when
  the 2^64th container is committed (`ContainerIndex.EveryRun`, `ContainerIndex.RunWraps`).

## Model

| member | source | states |
|---|---|---|
| `LockProtocol.EveryRun` | chains/atomic/memory.go:53-101 | in every schedule of any number of callers: at most one caller is between Lock and releaseLock of a shared ID, every count is the number of callers between makeLock and releaseLock, nothing panics, some unfinished caller can always step, the schedule's length is bounded, and at the end no lock is left |
| `LockProtocol.StepInv` | chains/atomic/memory.go:53-101 | every step of every caller keeps the protocol's invariant and cannot panic |
| `LockProtocol.RunInv` | chains/atomic/memory.go:53-101 | the invariant holds along every schedule, and each step uses up work of a caller |
| `LockProtocol.MutualExclusion` | chains/atomic/memory.go:53-69 | two callers that hold the same shared ID are the same caller |
| `LockProtocol.FindStep` | chains/atomic/shared_memory.go:115-136 | following the owners of the awaited mutexes leads to larger IDs, so to a caller that can step |
| `LockProtocol.NoDeadlock` | chains/atomic/shared_memory.go:115-136 | while a caller is unfinished some caller can step |
| `LockProtocol.StepCount` | chains/atomic/memory.go:71-101 | makeLock and releaseLock keep the count of each ID equal to the number of its referrers, in every interleaving |
| `LockProtocol.AllDoneIsClean` | chains/atomic/memory.go:88-101 | when all callers are done the lock table is empty and no mutex is held |
| `LockProtocol.LockTable.MakeLock` | chains/atomic/memory.go:71-86 | the new table is the protocol's makeLock step of the old one, and the returned mutex is the one in the table |
| `LockProtocol.LockTable.ReleaseLock` | chains/atomic/memory.go:88-101 | the new table is the protocol's releaseLock step of the old one; an unknown ID, on which the source panics, is told apart and changes nothing |
| `ByteStrings.CompareEqual` | utils/sorting.go:38-43 | the byte order is antisymmetric, and equal only for equal strings |
| `ByteStrings.CompareTransitive` | utils/sorting.go:38-43 | the byte order is transitive |
| `ByteStrings.SortBytesSorts` | utils/sorting.go:38-43 | sorting gives an ordered permutation |
| `AtomicState.SetValueConsistent` | chains/atomic/state.go:81-119 | a put keeps every trait's list equal to the present elements that carry the trait |
| `AtomicState.RemoveValueConsistent` | chains/atomic/state.go:148-179 | so does a removal |
| `AtomicState.RunConsistent` | chains/atomic/state.go:81-179 | the agreement holds after every run of puts and removals, failed ones included |
| `AtomicState.StatusIsBalance` | chains/atomic/state.go:81-179 | present, absent or tombstone is 1, 0 or -1: successful puts minus successful removals of the key |
| `AtomicState.FailsIffOutOfRange` | chains/atomic/state.go:81-179 | an operation fails exactly when it would take its key's balance out of [-1, 1] |
| `AtomicState.OnceOnlySucceeds` | chains/atomic/state.go:81-179 | if each key is put and removed at most once, everything succeeds and the table can be read off the set of operations |
| `AtomicState.OrderIndependent` | chains/atomic/state.go:81-179 | ... and every order of the operations leaves the same table and trait memberships |
| `AtomicState.ListsNewestFirst` | chains/atomic/state.go:81-119 | after every run each trait lists the elements that were put last first |
| `AtomicState.State.Value` | chains/atomic/state.go:56-73 | returns the element exactly when it is present; a tombstone reads as not found |
| `AtomicState.State.SetValue` | chains/atomic/state.go:81-119 | the new contents or the error are those of the put, and an error changes nothing |
| `AtomicState.State.RemoveValue` | chains/atomic/state.go:148-179 | likewise for the removal |
| `Paging.AppendTraitKeys` | chains/atomic/state.go:243-270 | the loop over one trait's iterator collects what the specification says, from the given key on |
| `Paging.GetKeysLoop` | chains/atomic/state.go:199-237 | the loop over the sorted traits returns the specified page |
| `Paging.GetKeysIsPage` | chains/atomic/state.go:199-237 | every page with a positive limit is the keys ahead of the cursor in order, ends at the limit or covers everything, and says where it stopped |
| `Paging.FullPageAdvances` | chains/atomic/state.go:199-270 | a full page of two keys or more moves the cursor strictly forward |
| `Paging.PagesReachAll` | chains/atomic/state.go:199-270 | feeding the cursor back reaches exactly the keys ahead of it, in a bounded number of calls |
| `Paging.ReachedIsAhead` | chains/atomic/state.go:199-270 | for every limit of at least one, no number of calls reaches a key that is not ahead of the first cursor |
| `Paging.AheadShrinks` | chains/atomic/state.go:199-270 | what is ahead of the cursor that a page returns, full or short, was ahead of the cursor it was given |
| `Paging.PaginationReaches` | chains/atomic/state.go:199-270 | from nil/nil with a limit of at least two: the keys that some number of calls reaches are exactly those with a requested trait that are not hidden behind an empty key, and a bounded number of calls reaches them all |
| `Paging.PaginationComplete` | chains/atomic/state.go:199-270 | without an empty key, every key with a requested trait and no other is reached |
| `Paging.PageSound` | chains/atomic/state.go:199-270 | any cursor, any limit: at most `limit` distinct keys, each with a requested trait; a shorter page leaves out nothing that is ahead |
| `Paging.LimitOneNeverAdvances` | chains/atomic/state.go:243-270 | with a limit of one, for any traits and any cursor: the first call reaches one key, if any is ahead, and no later call reaches another |
| `Paging.EmptyKeyHidesKeys` | chains/atomic/state.go:243-270 | two puts after which no number of pages reaches one of the keys |
| `SharedMemory.SharedIDInjective` | chains/atomic/memory.go:104-115 | the ID of a shared space is the same from both sides and different for different peers |
| `SharedMemory.ChannelIsShared` | chains/atomic/prefixes.go:14-65 | what A writes for B is what B reads and removes, exactly if A and B differ |
| `SharedMemory.ChannelsDisjoint` | chains/atomic/prefixes.go:14-65 | different ordered pairs of chains share no table |
| `SharedMemory.PutsExactly` | chains/atomic/shared_memory.go:149-153 | a list of puts succeeds exactly if it takes no key's status above 1; then every status has risen by the number of its puts, a present key has the value and traits of its last put, and keys that are not named are unchanged |
| `SharedMemory.RemovesExactly` | chains/atomic/shared_memory.go:141-145 | likewise for a list of removals, downwards to -1 |
| `SharedMemory.AppliedOneMore` | chains/atomic/shared_memory.go:132-155 | a peer's request succeeds and has the effect it would have had alone, after any other peers' requests |
| `SharedMemory.AppliedUnique` | chains/atomic/shared_memory.go:132-155 | the result does not depend on the order of the peers |
| `SharedMemory.AppliedStores` | chains/atomic/shared_memory.go:132-155 | puts go to the store the peer reads, removals to the store it writes, and other pairs are untouched |
| `SharedMemory.CommitsDelivers` | chains/atomic/shared_memory.go:115-165 | a committed call has made every put and every removal of every request, and all of them fitted |
| `SharedMemory.CommitsMoves` | chains/atomic/shared_memory.go:115-165 | what one call adds to the status of a key between two chains is the sender's puts less the receiver's removals |
| `SharedMemory.ApplyCallConsistent` | chains/atomic/shared_memory.go:115-165 | every Apply keeps every store's index in agreement with its table: all outbound and all inbound stores, that of a chain towards itself included |
| `SharedMemory.ReachableConsistent` | chains/atomic/shared_memory.go:85-165 | hence after any sequence of Apply calls of any chains |
| `SharedMemory.IndexedNeverFails` | chains/atomic/shared_memory.go:85-113 | after any sequence of Apply calls, every key on every page of every inbound store is present, so Indexed never fails |
| `ConcurrentApply.CommitIsApply` | chains/atomic/shared_memory.go:129-165 | what a call writes at its end is what the whole call would have written to the database of that moment, whatever others committed while it ran under its locks |
| `ConcurrentApply.StepInv` | chains/atomic/shared_memory.go:129-165 | in every interleaving each overlay stays what its requests would write now, because the tables of locked spaces are changed by nobody else |
| `ConcurrentApply.StepIsAtomic` | chains/atomic/shared_memory.go:129-165 | every step is a whole Apply or leaves the database alone, and a request that fails would have failed on its own at that moment |
| `ConcurrentApply.HeldIsStable` | chains/atomic/shared_memory.go:129-165 | no step of another caller changes a table of a space that a caller holds |
| `ConcurrentApply.CommitsOnce` | chains/atomic/shared_memory.go:115-165 | in every schedule a caller commits at most once, and only if it had not returned |
| `ConcurrentApply.RunIsSerial` | chains/atomic/shared_memory.go:115-165 | every schedule of concurrent calls leads to the database that the committing callers' own calls, each once and in the order of the commits, would have led to one after the other |
| `ConcurrentApply.EveryScheduleConsistent` | chains/atomic/shared_memory.go:115-165 | hence in every schedule all trait indices agree with their tables |
| `ConcurrentApply.EveryScheduleConserves` | chains/atomic/shared_memory.go:115-165 | in every schedule the status of a key between two chains is what the committed calls have put less what they have removed, so nothing is lost or made up |
| `LockedApply.EveryRun` | chains/atomic/shared_memory.go:115-165 | with the real lock steps and nothing assumed about who holds which lock: every run leads to the database of the committing callers' own calls in the order of the commits, and all trait indices agree with their tables |
| `LockedApply.EveryRunConserves` | chains/atomic/shared_memory.go:115-165 | the same with the real lock steps |
| `LockedApply.RunRefines` | chains/atomic/shared_memory.go:115-165 | every run with the real lock steps is a run of callers whose locks have one holder, with the same commits |
| `LockedApply.StepInv` | chains/atomic/memory.go:53-101 | every step keeps both machines' invariants and that each caller holds exactly the spaces between its Lock and its releaseLock; nothing panics |
| `LockedApply.LockIsFree` | chains/atomic/memory.go:53-69 | a caller that locks a mutex gets a space that nobody holds |
| `LockedApply.NoDeadlock` | chains/atomic/shared_memory.go:115-165 | while a call is unfinished some call can lock, perform, commit or release |
| `SharedMemory.SortIDsAscending` | chains/atomic/shared_memory.go:116-127 | distinct shared IDs are sorted strictly ascending, which is the order the locks are taken in |
| `SharedMemory.Memory.Get` | chains/atomic/shared_memory.go:65-83 | succeeds exactly if all keys are present in the inbound store, with their values in order |
| `SharedMemory.Memory.Indexed` | chains/atomic/shared_memory.go:85-113 | returns the values of the page, and never fails on a consistent store |
| `SharedMemory.Memory.Apply` | chains/atomic/shared_memory.go:115-165 | succeeds exactly if the write does and no request takes a key's status out of [-1, 1] on the database as it was; then every put and removal has been made and the batches follow in order, otherwise the database is unchanged; locks are taken in ascending order |
| `SharedMemory.AppendBatches` | chains/atomic/writer.go:10-22 | writing the assembled batch equals writing the base batch and then each given batch |
| `SharedMemory.LastBatchWins` | chains/atomic/writer.go:10-22 | a slot is left as the last operation on it in the last batch that names it says, and as it was if none does |
| `Database.ReplayConcat` | database/batch.go:82-93 | replaying two batches joined is replaying one after the other |
| `Database.ReplayLast` | database/batch.go:82-93 | a key is left as the last operation on it says |
| `Database.VersionDB.Get` | database/versiondb/db.go:69-83 | reads the pending write if there is one, and the base database otherwise |
| `Database.VersionDB.CommitBatch` | database/versiondb/db.go:220-246 | writing the batch to the base gives what readers of the overlay saw, in any order of the pending writes |
| `Database.BatchOps.Put` | database/batch.go:55-62 | queues the operation and keeps the size in step with the operations |
| `Database.BatchOps.Delete` | database/batch.go:64-71 | likewise |
| `Database.BatchOps.Size` | database/batch.go:73-75 | the counter is the sum over the queued operations |
| `Database.BatchOps.Replay` | database/batch.go:82-93 | queues all operations of the batch on the other one, in order |
| `Database.ReplayDeletes` | database/helpers.go:199-237 | a batch of deletions removes exactly its keys |
| `Database.ClearPrefix` | database/helpers.go:199-237 | terminates; on success exactly the keys with the prefix are gone, through any number of partial writes and iterator restarts; it fails only if a write or an iterator does, and then only keys with the prefix are missing |
| `Database.UInt64RoundTrip` | database/helpers.go:61-72 | packing and parsing are inverse on 64-bit values and on 8-byte strings; other lengths are errors |
| `Database.UInt64Order` | database/helpers.go:61-72 | packed numbers are ordered bytewise as the numbers are |
| `Network.EveryRun` | network/network.go:413-1328 | in every interleaving connecting and connected are disjoint, a connected node has a known IP and is not tracked, a tracked node has a known IP unless it was tracked manually, and the unchecked reads are safe |
| `Network.StepInv` | network/network.go:413-1328 | every locked region keeps the invariant and reads safely |
| `Network.StepTrackedAreKnown` | network/network.go:568-583 | while every tracked node has a known IP, a step ends that exactly if it is ManuallyTrack of a node that is neither connected, nor tracked, nor known |
| `Network.TrackReliesOn` | network/network.go:568-583 | what the comment in Track says holds throughout a run exactly if no step of it is such a call |
| `Network.ManualBreaksTrackInvariant` | network/network.go:818-840 | a run in which such a node exists |
| `Network.EveryOpenRun` | network/network.go:432-649 | before StartClose, with truthful transaction IDs: a peer recorded as knowing a validator told us of an IP no older than the one we held at the record, and our address for the validator has neither changed nor been dropped since, not even to come back |
| `Network.KnownIsJustified` | network/network.go:432-649 | the same from any justified state |
| `Network.TrackGossip` | network/network.go:508-597 | Track records only what its claims justify |
| `Network.MarkTrackedGossip` | network/network.go:614-649 | so does MarkTracked, with acknowledgements |
| `Network.OtherForgetsMoved` | network/network.go:413-457 | every other region adds no pair, and forgets all pairs of a validator whose address it changes or drops |
| `Network.OtherGossip` | network/network.go:413-457 | hence records stay justified through every other region |
| `Network.UntruthfulRecordsUnmentioned` | network/network.go:524-597 | a run from the empty network in which a wrong transaction ID records a validator that the peer never mentioned in it |
| `Freshness.StepHeldAfter` | network/network.go:413-1328 | for every step and node: the IP is dropped exactly if its connection or dialling ends unwanted or we close; an IP on offer is taken if the node is known, wanted or connecting; and what is held is the freshest of what was held and what was on offer |
| `Freshness.RunFreshest` | network/network.go:413-1328 | over any run in which a node's IP stays held it only gives way to fresher ones, and at the end it is the freshest of all that were on offer |
| `Freshness.TrackAllFreshest` | network/network.go:505-612 | the loop of Track keeps the freshest verified IP of every known or wanted node, and none of any other |
| `Freshness.StepPhase` | network/network.go:413-1328 | a connection is upgraded unless we close, established when its handshake completes, gone after its clean-up, and changes at no other step |
| `Freshness.LeavingGoesOn` | network/network.go:651-675 | what a Disconnected call does next is always possible, and ends with the clean-up that fits |
| `Freshness.StepSettings` | network/network.go:1308-1328 | closing is for good, manual tracking is kept, and only the validator set's own calls change it |
| `Freshness.StepDials` | network/network.go:413-1328 | exactly which steps start and stop dialling a node, and that a known node is dialled at the address held |
| `Freshness.EveryRunLinked` | network/network.go:413-1328 | in every interleaving a known node is connected or dialled at the address held, gossip is tracked for exactly the peers that are not being left, and is about validators only |
| `Freshness.TrackOneReports` | network/network.go:508-597 | a claim is acknowledged exactly if we then hold an IP no older, with that timestamp; its transaction counts as up to date exactly if that is the claim's own |
| `Freshness.AckIsFreshest` | network/network.go:588-612 | if transaction IDs name nodes, each acknowledgement carries the timestamp of the IP held at the end |
| `Freshness.TrackOneKnown` | network/network.go:508-597 | what peers know about a validator is forgotten exactly if its address changes |
| `Freshness.StepKnown` | network/network.go:413-1328 | outside Track, a pair is recorded exactly by an acknowledgement that is not behind, and forgotten exactly if the address changes or the peer or the validator leaves |
| `Freshness.TrackRecords` | network/network.go:505-612 | Track records its peer as knowing every validator that it claimed as we then held it |
| `Network.PeerTable.Connected` | network/network.go:413-457 | the method is the Connected step and keeps the invariant; of the IP we held and the one of the handshake, the fresher one is held, ours if they are equally fresh |
| `Network.PeerTable.Track` | network/network.go:505-612 | the loop is the Track step, and the acknowledgements carry the freshest timestamps we know |
| `Network.PeerTable.MarkTracked` | network/network.go:614-649 | the method is the MarkTracked step; it fails exactly on a malformed transaction ID, and then changes nothing |
| `Network.PeerTable.ReadConnection` | network/network.go:656-675 | chooses the clean-up whose precondition holds |
| `Network.PeerTable.DisconnectedFromConnecting` | network/network.go:957-978 | the method is that step |
| `Network.PeerTable.DisconnectedFromConnected` | network/network.go:980-1006 | the method is that step; its unchecked read is safe |
| `Network.PeerTable.ManuallyTrack` | network/network.go:818-840 | the method is that step |
| `Network.PeerTable.DialCleanup` | network/network.go:1086-1105 | the method is that step |
| `Network.PeerTable.Upgrade` | network/network.go:1230-1294 | the method is that step: closing, connecting and connected nodes are refused |
| `Network.PeerTable.StartClose` | network/network.go:1308-1328 | the method is that step: tracked nodes are dropped from both tables |
| `Network.Peers` | network/network.go:677-728 | at most the limit of distinct validators that the peer does not know, each connected when it was looked at and with the IP held then; below the limit none of these is missing |
| `Genesis.SplitSpec` | genesis/genesis.go:477-538 | the number of parts, with the exact condition for getting all n; all but the last weigh total / n and the last less than total / n + n; amounts are conserved for every owner and locktime |
| `Genesis.FillConserves` | genesis/genesis.go:497-530 | the innermost loop places exactly the amount of its unlock |
| `Genesis.FillBalances` | genesis/genesis.go:497-530 | every part it closes has the common weight |
| `Genesis.FillUnlock` | genesis/genesis.go:497-530 | the innermost loop on its 64-bit variables neither overflows nor underflows |
| `Genesis.SplitAllocations` | genesis/genesis.go:477-538 | terminates without overflow for every non-overflowing total and every n of at least 1, with the properties above |
| `Genesis.InitialSupply` | genesis/config.go:140-156 | the sum of all amounts, and an error exactly if it exceeds 64 bits |
| `Genesis.SortSorts` | genesis/config.go:56-60 | holders are ordered by amount |
| `Genesis.Holders` | genesis/genesis.go:290-310 | the X-chain holds the initial amounts of every set of addresses |
| `Genesis.StakedOrUtxos` | genesis/genesis.go:356-382 | staked is exactly what belongs to the given addresses, what belongs to others becomes UTXOs, and together they are everything |
| `Genesis.Unstaked` | genesis/genesis.go:356-382 | the loop yields the UTXOs of the unstaked allocations and the staked ones |
| `Genesis.StakeParts` | genesis/genesis.go:384-416 | the staker loop indexes its parts in range exactly if there is one per staker |
| `Genesis.FromConfig` | genesis/genesis.go:272-416 | exactly when it overflows, exactly when it panics, and otherwise one stake per staker, equal but for the last, of exactly what the initially staked addresses own; everything else becomes UTXOs, none of them empty, and nothing is lost |
| `Genesis.StakedOrNot` | genesis/genesis.go:353-382 | whatever is chosen among the initially staked addresses has no UTXO, and whatever is chosen among the others has no stake |
| `Genesis.GenesisHoldsSupply` | genesis/genesis.go:272-416 | X-chain, P-chain and staked amounts add up to the initial supply, in total and for every AVAX address |
| `Genesis.ValidateInitialStakedFunds` | genesis/genesis.go:57-113 | valid exactly if the staked addresses are given, distinct and allocated; otherwise the error names the first offending address in their order, and why |
| `Genesis.ValidateConfig` | genesis/genesis.go:118-182 | valid exactly if all conditions on network ID, supply, times, durations, offsets, stakers, staked funds and C-chain genesis hold; otherwise the error is that of the first one that fails |
| `Genesis.ValidConfigCanPanic` | genesis/genesis.go:118-182 | a config that passes all of these, with nothing to stake for two stakers |
| `Genesis.OffsetCheck` | genesis/genesis.go:163-170 | the offset check decides whether the offsets fit in the stake duration, unless their product exceeds 64 bits and wraps to something that fits |
| `Genesis.OffsetWraps` | genesis/genesis.go:163-170 | an offset that three stakers wrap to zero |
| `Router.ApiRouter.ForceAddRouter` | api/server/router.go:81-110 | terminates on every alias graph; nothing is replaced; the endpoint appears only at what the base reaches; closure under aliases is restored even on an error; and it succeeds exactly if nothing the base reaches has the endpoint and what it reaches is a tree |
| `Router.ClearIsTree` | api/server/router.go:101-109 | the loop over aliases finds its way clear exactly if nothing reached has the endpoint, the base is on no cycle and no route below it is an alias twice |
| `Router.RepeatedIsNoTree` | api/server/router.go:112-141 | a base that was given a route twice reaches no tree, so adding an endpoint to it reports an error |
| `Router.BranchesUnique` | api/server/router.go:101-109 | if the aliases of a base are roots of disjoint trees, no route below the base is an alias twice |
| `Router.ApiRouter.AddToAliases` | api/server/router.go:101-109 | the loop over aliases, which goes on after the first error |
| `Router.ApiRouter.AddRouter` | api/server/router.go:64-79 | every endpoint of a base stays on all its aliases, with the same handler while no call has failed; succeeds exactly if the base is not reserved, nothing it reaches has the endpoint and what it reaches is a tree, which it is as long as no AddAlias named a route twice |
| `Router.ApiRouter.AddAlias` | api/server/router.go:112-141 | every endpoint of the base is found under each new alias and stays on all its aliases; the whole new alias table; an alias that is reserved changes nothing; otherwise it succeeds exactly if every endpoint of the base can be given to each new alias, which as long as no call named a route twice means that nothing they reach has it |
| `Router.InjectiveClear` | api/server/router.go:112-141 | where no route is an alias twice, an endpoint can be given to the new aliases exactly if nothing they reach has it |
| `Router.ApiRouter.GetHandler` | api/server/router.go:49-62 | finds a handler exactly if it is installed, and tells the two misses apart |
| `Router.PathsMeet` | api/server/router.go:118-128 | since no route is an alias twice, two alias paths to one route share all of the shorter one |
| `Router.SiblingsDisjoint` | api/server/router.go:101-109 | hence aliases of one base that do not lead back to it reach nothing in common |
| `Router.ReachedHas` | api/server/router.go:81-110 | whatever a base has, everything it reaches through aliases has |
| `HealthWorker.Worker.RegisterCheck` | api/health/worker.go:73-121 | errors exactly for the restricted tag and for duplicates, without a change; otherwise the whole new state, and accurate gauges stay accurate exactly if the registration is clean |
| `HealthWorker.RegisterKeepsAccurate` | api/health/worker.go:73-121 | that equivalence, for all states |
| `HealthWorker.RegisterGood` | api/health/worker.go:73-121 | every registration keeps each gauge equal to the weights of its failing checks plus a drift that is settled when the tag is first used |
| `HealthWorker.CleanIsAccurate` | api/health/worker.go:267-309 | after clean registrations every registered tag's gauge is the number of failing checks in the tag or the application tag |
| `HealthWorker.ResultGood` | api/health/worker.go:216-265 | a changed result moves the gauges by the weight of its check |
| `HealthWorker.RepeatedTagCountsTwice` | api/health/worker.go:267-309 | a registration after which a gauge shows 2 for one failing check |
| `HealthWorker.NewTagMissesFailing` | api/health/worker.go:267-309 | two registrations after which the gauge of a new tag shows 1 for two failing checks |
| `HealthWorker.Worker.RunCheck` | api/health/worker.go:216-265 | records the result, with its contiguous failures and the time of the first of them, and keeps the gauges accurate after clean registrations |
| `HealthWorker.ResultCounts` | api/health/worker.go:216-265 | after any outcomes of a check, its result counts how many of the last ones failed in a row, and dates the first of these |
| `HealthWorker.Worker.UpdateMetrics` | api/health/worker.go:267-309 | by how much every gauge changes |
| `HealthWorker.Worker.Results` | api/health/worker.go:139-166 | exactly the checks that carry one of the tags and the application checks, or all checks if no tag is given; healthy exactly if none of them fails, which is when the gauge of a single tag is zero |
| `ContainerIndex.EveryRun` | indexer/index.go:76-178 | after any Accepts, failures at any operation, crashes and restarts, of fewer than 2^64 distinct containers: positions 0 to next-1 hold exactly the accepted containers in order of first acceptance, with IDs as the inverse |
| `ContainerIndex.RunWraps` | indexer/index.go:128-178 | and the event that makes it 2^64 leaves a database that stands for no sequence |
| `ContainerIndex.StepGood` | indexer/index.go:128-178 | one event, from any good state |
| `ContainerIndex.AcceptSucceeds` | indexer/index.go:128-178 | Accept succeeds exactly if no operation that it gets to fails, which for a container accepted before is the first one only |
| `ContainerIndex.WrittenRepresents` | indexer/index.go:151-178 | what a commit adds |
| `ContainerIndex.WrittenWraps` | indexer/index.go:170-178 | at 2^64 containers the counter wraps and the database stands for no sequence |
| `ContainerIndex.OpenGood` | indexer/index.go:76-113 | reopening recovers the counter |
| `ContainerIndex.Index.Accept` | indexer/index.go:128-178 | step by step with its overlay, it is the specified transition, whichever operation fails, also after a call that failed and left writes in the overlay |
| `ContainerIndex.Index.GetContainerByIndex` | indexer/index.go:184-217 | the container at the position, or an error exactly beyond the last |
| `ContainerIndex.Index.GetContainerRange` | indexer/index.go:218-254 | the corresponding slice; each error exactly when it is due; empty containers beyond the 64-bit wrap |
| `ContainerIndex.Index.GetIndex` | indexer/index.go:256-262 | the position of the ID, or not found |
| `ContainerIndex.Index.GetContainerByID` | indexer/index.go:264-274 | the container with the ID, or not found |
| `ContainerIndex.Index.GetLastAccepted` | indexer/index.go:276-297 | the last container, or an error exactly if there is none |
| `Indexer.EveryRun` | indexer/indexer.go:81-327 | over any sequence of runs: a run that disallows incomplete indices opens one only for a chain that no earlier run passed over, and passes over only chains that no earlier run served |
| `Indexer.OpensExactlyWhen` | indexer/indexer.go:152-327 | when a registration opens an index, in terms of what earlier runs did |
| `Indexer.PassesOverExactlyWhen` | indexer/indexer.go:208-238 | when a disabled run passes over a chain; otherwise it closes |
| `Indexer.AllDisallowed` | indexer/indexer.go:152-264 | if no run allows incomplete indices, no chain is ever both served and passed over |
| `Indexer.IncompleteIsEarlier` | indexer/indexer.go:240-250 | in an enabled run an incomplete mark stems from an earlier run, so the condition on hasRunBefore never decides |
| `Indexer.EveryRunIndexes` | indexer/indexer.go:81-327 | a running process has the block index of exactly the chains that this run has served, and transaction and vertex indices only among them |
| `Indexer.OpeningAdds` | indexer/indexer.go:265-327 | what an opening registration adds for each kind of VM, and that it closes the indexer exactly if an index fails or the VM is of another kind |
| `Indexer.OthersAddNone` | indexer/indexer.go:152-264 | any other registration adds no index; with indexing enabled it closes the indexer if it looks at the chain, and if it does not it changes nothing |
| `Indexer.MarksExactly` | indexer/indexer.go:152-264 | exactly which events add to the marks that persist; none takes a mark away |
| `Indexer.ChainIndexer.RegisterChain` | indexer/indexer.go:152-327 | the branches of the method are the specified transition |
| `IdBits.EqualSubsetAgrees` | ids/bits.go:17-62 | the masked, bytewise form holds exactly if every bit of the range agrees; a start below zero leaves out the first byte |
| `IdBits.FirstDifferenceSubset` | ids/bits.go:64-128 | the least differing bit of the same range, or none; it agrees with EqualSubset exactly up to the last bit of an ID |
| `IdBits.CompareInterior` | ids/bits.go:107-115 | the loop over the bytes between the first and the last |
| `IdBits.SourceShifts` | ids/id.go:112-130 | bits and masks are what the source writes with shifts |
| `IdBits.MaskedEqual` | ids/bits.go:40-61 | masked bytes are equal exactly if the kept bits are |
| `SizedLru.EveryRun` | cache/lru_sized_cache.go:76-118 | in every run: the counter is the sum of the resident sizes less the drift and within the bound, every entry has the last value put for its key, and the entries stand in the order of their last use |
| `SizedLru.ExactRun` | cache/lru_sized_cache.go:76-96 | without a harmful overwrite the counter is exact |
| `SizedLru.PutDrifts` | cache/lru_sized_cache.go:83-96 | exactly when, and by how much, an overwrite makes the counter fall short |
| `SizedLru.HarmlessDrift` | cache/lru_sized_cache.go:76-96 | from an exact counter, an operation keeps it exact if and only if it is harmless; not growing an entry is harmless |
| `SizedLru.PutEvictsLeastRecent` | cache/lru_sized_cache.go:87-92 | after any run, evicted entries were all used before the remaining ones, and there are no more of them than needed |
| `SizedLru.GetKeeps` | cache/lru_sized_cache.go:98-106 | Get only reorders: the same entries, with the key last if it is there |
| `SizedLru.PutKeeps` | cache/lru_sized_cache.go:76-96 | a Put that is not too large leaves its own entry and those of other keys, but for the fewest least recent ones that make room |
| `SizedLru.StepResident` | cache/lru_sized_cache.go:76-118 | when an operation leaves a key in the cache, for every operation |
| `SizedLru.ResidentExactly` | cache/lru_sized_cache.go:76-118 | in every run a key is resident exactly if it was put and has not been evicted, flushed or pushed out since; it is pushed out exactly by an entry that does not fit beside it and what was used since |
| `SizedLru.OverwriteMiscounts` | cache/lru_sized_cache.go:83-96 | a run of three puts after which the cache holds 11 and counts 7 |
| `SizedLru.SizedLRU.Put` | cache/lru_sized_cache.go:76-96 | the new state, with the accounts kept |
| `SizedLru.SizedLRU.EvictDownTo` | cache/lru_sized_cache.go:87-92 | the loop terminates and drops the shortest sufficient prefix |
| `SizedLru.SizedLRU.Get` | cache/lru_sized_cache.go:98-106 | a hit exactly if the key is resident; it returns the last value put, makes the entry the newest and keeps all others |
| `SizedLru.SizedLRU.Evict` | cache/lru_sized_cache.go:108-113 | removes the entry and its size, and no other entry |

## Left out

- Sockets, TLS, dialling and its back-off, timers, samplers, metrics other than the health gauges, logging and tracing.
- Certificates and signatures: a claimed IP carries the outcome of its authentication.
- The byte formats of the codecs, and hashing: stored values are values, and hashes are injective functions.
- Database read errors, other than in the indexer, in Accept and in ClearPrefix.
- The insides of linkeddb, prefixdb, linkedhashmap, the gossip tracker and mux: each is what its interface promises (a list, separate tables, a list of entries, a set of pairs, a table).
- Floating-point numbers: the health gauges are integers, and PortionFilled and NodeUptime are not modelled.
- The variable `amount` of FromConfig, which the source adds to and never reads.
- Address formatting, memos and the building of the genesis transactions in FromConfig. The clock and the largest stake duration that validateConfig compares with are whole seconds.
- The API endpoints that registerChainHelper adds, and the closing of the index databases.
- The details, timestamp and duration of a health result.
- IdBits.EqualSubsetAgrees: a start of -8 or less, with a stop within an ID, is not modelled, because the index it leads to is negative.
- IdBits.FirstDifferenceSubset: likewise.
- SharedMemory.ReachableConsistent: extra batches that write into the shared tables are not covered.
- SharedMemory.CommitsDelivers: likewise, for what is there after the batches.
- Genesis.SplitAllocations: an overflowing total is not modelled, because FromConfig has then already failed.
- ConcurrentApply.RunIsSerial: extra batches that write into the shared tables are not covered.
- LockedApply.EveryRun: likewise.
- SizedLru.EveryRun: negative sizes are not modelled.
- Network.EveryOpenRun: runs with untruthful transaction IDs are covered by the counterexample only.
- The rest of the repository: wiring, configuration, message encoding, API clients and services, authentication and the keystore.
