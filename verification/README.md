# Verified model of the node's stateful core

This project models the parts of the node that keep state under concurrency, failures and restarts,
and proves properties of them over every input, every run or every reachable state. It is written
for Dafny 4.11; `dafny verify dfyconfig.toml` checks all of it.

## What is modelled

- **Peer connections** (`PeerProtocol.dfy`, `PeerAddresses.dfy`, `Network.dfy`). Node IDs move between tracked,
  connecting and connected. Every region under `peersLock`, every unlocked router callback, every
  round of a dial goroutine and every exit of a peer goroutine is a step of one transition system,
  and the results hold in all interleavings. That `Connected` runs at most once per peer object
  and before `Disconnected`, which runs once, is not assumed: it follows from the modelled
  goroutines of `network/peer/peer.go`.
- **Shared memory between chains** (`SharedLocks.dfy`, `AtomicState.dfy`, `Pagination.dfy`,
  `Namespaces.dfy`, `VersionDb.dfy`, `SharedSpaces.dfy`, `SharedMemory.dfy`, `ChainMemory.dfy`,
  `SharedRuns.dfy`). Reference-counted locks under any number of threads; elements, tombstones and
  trait lists; paging; hashed prefixes; and Get, Indexed and Apply over one byte-keyed database
  through an overlay, by one thread and by any number of them at once.
- **The list in a database and the caches** (`LinkedList.dfy`, `ListOrder.dfy`, `LinkedDb.dfy`, `Lru.dfy`,
  `EvictableLru.dfy`). The stored doubly linked list, its batch, its two caches and its iterator
  against a plain sequence; the LRU against a recency list.
- **The remote batch protocol** (`RemoteBatch.dfy`): client, server, lost calls, and several
  batches at once.
- **The codec** (`BigEndian.dfy`, `Codec.dfy`, `WireFormat.dfy`, `Packing.dfy`, `ReflectCodec.dfy`,
  `LinearCodec.dfy`): a printer and a parser indexed by types, and the packer-based marshal and
  unmarshal that refine them.
- **Genesis** (`Genesis.dfy`): the stake split and the total handed out.
- **API routes** (`Router.dfy`): alias closure on any graph, and exactly when adding succeeds.
- **Bit ranges and vote bags** (`Bits.dfy`, `Bag.dfy`), and the **acceptance index**
  (`Indexer.dfy`).

Code that updates fields in place is a class whose methods are proved against functions on values;
theorems about whole runs are about those functions. Objects that the source reaches through
pointers and shares (peers, tracked IPs, rcLocks, list elements) are named by handles. A
database access or a remote call may fail at any point (`Faults.dfy`); what the methods then leave is stated, and that
they succeed when nothing fails. The hash is a parameter: it is
never assumed injective as a whole, only without collision on the inputs at hand.

## Where the code does less than one might expect

- The codec round trip holds exactly for values whose slices have at most MaxInt32 elements:
  marshal compares the length modulo 2^32 with the maximum, unmarshal also refuses anything above
  MaxInt32 (`Codec.RoundTripExactly`, `Codec.LongSliceRefused`).
- A value with an array above the maximum slice length unmarshals and does not marshal
  (`Codec.CanonicalExactly`, `Codec.LongArrayStuck`).
- A registration keeps the type maps inverse exactly when its ID is not taken, which a negative
  skip or a wrap-around can break (`LinearCodec.RegisterKeepsInverse`, `LinearCodec.StepBackOverwrites`).
- `splitAllocations` returns as many groups as stakers exactly when something is staked or there is
  one staker; otherwise `FromConfig` panics (`Genesis.SplitIsExact`, `Genesis.HandOut`). With less staked than
  there are stakers some validator weighs nothing, which `BuildGenesis` refuses (`Genesis.SharesWeigh`).
- An iterator whose start cannot be looked up starts at the head and reports nothing, so `Indexed` may
  return a page that was not asked for: whenever a key before the start is not in the page yet and there is
  room (`Pagination.VisitFailed`, `Pagination.PageFailed`, `Pagination.FailedLookup`). A client that pages to the
  end loses nothing by it (`Pagination.FailuresLoseNothing`).
- An element with an empty key hides from paging what stands before it in a trait's list
  (`Pagination.PagingIsComplete`, `Pagination.PagingOneTrait`).
- A chain paired with itself in shared memory never receives what it sends
  (`Namespaces.OutboundIsPeersInbound`).
- With limit 1, paging from a listed key returns that key for ever (`Pagination.OneKeyPagesStandStill`).
- `EqualSubset` and `FirstDifferenceSubset` both answer false for a range that ends beyond the ID
  (`Bits.EqualSubsetIs`, `Bits.FirstDifferenceSubset`); with a negative start both leave out the first
  byte or panic (`Bits.NegativeStart`).
- Adding a route or an alias reports an error, after having added it, when an alias list has a repeat
  (`Router.Table.AddRouter`).
- `GetContainerRange` returns blank containers exactly when start plus number wraps around
  (`Indexer.RangeExactly`, `Indexer.BlankRange`). Its comment allows zero containers to be asked for; the code
  refuses that.
- `marshal` looks at the kind of an array type where it means the kind of its elements, so byte
  arrays are written one by one; the bytes are the same (`Codec.OctetsOneByOne`).
- After `StartClose` a node can be tracked again, and a goroutine started for it: `Track`, `ManuallyTrack` and
  `disconnectedFromConnected` do not look at `closing` (`PeerProtocol.TrackedAgain`,
  `PeerProtocol.TrackedAfterClosing`). Nobody joins connecting or connected (`PeerProtocol.ShutdownAdmitsNobody`).

## Model

| member | source | states |
|---|---|---|
| `PeerProtocol.RouterSeesAlternation` | network/network.go:344-369 | in every run of the lock regions, dial loops, peer goroutines and unlocked callbacks, the router sees Connected, Disconnected, Connected, … for each node ID, starting with Connected, also when later peer objects reuse the ID |
| `PeerProtocol.CollectionsStayApart` | network/network.go:961-1006 | in every reachable state connecting and connected are disjoint, no connected node is tracked, and the "unexpectedly connected" branch has never been taken |
| `PeerProtocol.InboundOnlyWhileUp` | network/peer/peer.go:300-412 | a peer whose handshake is over and whose reader runs is one the router has been told is connected and not yet disconnected |
| `PeerProtocol.LeftTrackersAreStopped` | network/network.go:744-784 | a tracked IP that was in the map at some point of a run is, at any later point, stopped exactly when it is no longer in the map |
| `PeerProtocol.OneLiveDialer` | network/network.go:832-905 | no two dial goroutines of one node are both without a stop signal |
| `PeerProtocol.TimestampsNeverDecrease` | network/network.go:406-441 | while a node stays tracked, over any stretch of a run, the timestamp of its IP does not decrease |
| `PeerProtocol.InvGivesAges` | network/tracked_ip.go:33-40 | in any one step a node that stays tracked keeps its timestamp or gets a newer one, and keeps its back-off delay unless the step is the back-off itself |
| `PeerProtocol.ShutdownAdmitsNobody` | network/network.go:1019-1048 | once closing is set, no later state of the run has a node in connecting or connected that was not there |
| `PeerProtocol.TrackedAgain` | network/network.go:405-441 | closing or not, a step puts an untracked node among the tracked ones if and only if it is a Track of a wanted node that is not connected, a ManuallyTrack of one that is not connected, or the end of Disconnected for a wanted one; each time with a goroutine for an address that has not been stopped |
| `PeerProtocol.TrackedAfterClosing` | network/network.go:766-783 | there is a run in which a node is tracked, with a new dial goroutine, after StartClose has emptied the map |
| `PeerProtocol.Reachable` | network/network.go:135-141 | the invariant that ties the three collections, the tracked IPs, the peer goroutines and the callbacks together holds in every state of every run |
| `PeerProtocol.JoiningMoves` | network/network.go:344-362 | the peer that enters Connected is the one recorded in connecting, so the region always finds and moves it |
| `PeerProtocol.AnyNumberOfVisits` | network/network.go:344-461 | for any node and any number there is a run in which it connects and disconnects that many times, each time as a new peer object, so the alternation is not empty |
| `PeerProtocol.InvKept` | network/network.go:449-461 | each step of each goroutine keeps that invariant |
| `Network.Network.Connected` | network/network.go:344-362 | the locked region of Connected leaves the fields as the region of the protocol says, returns the peer moved, and keeps the collections disjoint, connected nodes untracked and a tracked IP stopped exactly when it has left the map; so do the methods below |
| `Network.Network.Track` | network/network.go:381-442 | Track answers true exactly for an acceptable, signed address of a node that is not connected and is tracked with an older timestamp, or is untracked and wanted; then the node is tracked at that address, and otherwise nothing changes |
| `Network.Network.ShouldTrack` | network/network.go:786-811 | the check before the signature is looked at answers exactly whether the locked part would track the address |
| `Network.Network.ManuallyTrack` | network/network.go:571-594 | ManuallyTrack is its region: the node is wanted, and tracked at the given address if it was neither connected nor tracked |
| `Network.Network.FromConnecting` | network/network.go:744-764 | disconnectedFromConnecting is its region: a wanted node stays tracked at its address with its delay and a fresh stop flag, an unwanted one does not |
| `Network.Network.FromConnected` | network/network.go:766-784 | disconnectedFromConnected is its region: a wanted node is tracked at the address of the peer that left; it overwrites the tracked entry without stopping it, which for a connected node loses no running tracker |
| `Network.Network.DialRound` | network/network.go:832-868 | the locked part of a dial round is its region; the goroutine ends exactly if the node is unwanted, connecting or connected |
| `PeerAddresses.NewestClaimIsTracked` | network/network.go:381-442 | in every state of every run a tracked node is tracked at the newest address claimed for it since it began to be tracked, the first of equally new ones; what began it is a Track, a ManuallyTrack or the peer that left |
| `PeerAddresses.TrackTracks` | network/network.go:405-441 | the exact condition under which Track tracks; then the claimed address, the delay carried over, a goroutine of its own, the old one stopped, and every other node as before |
| `PeerAddresses.ManuallyTrackTracks` | network/network.go:571-594 | what ManuallyTrack leaves for the node and for every other node |
| `PeerAddresses.FromConnectingTracks` | network/network.go:744-764 | the address, the delay and the goroutine that disconnectedFromConnecting leaves, and every other node as before |
| `PeerAddresses.FromConnectedTracks` | network/network.go:766-784 | the address of the peer that left is tracked exactly if the node is wanted, and every other node as before |
| `PeerAddresses.LeftTracked` | network/network.go:766-784 | in every reachable state that address is the one of the peer whose Disconnected runs |
| `PeerAddresses.DialRoundEnds` | network/network.go:848-873 | a dial round is the last one if and only if the node is unwanted, connecting or connected; only an unwanted node is untracked |
| `PeerAddresses.ConnectedMoves` | network/network.go:344-362 | Connected moves exactly the peer of that node from connecting to connected and untracks only that node |
| `Network.Network.Upgrade` | network/network.go:961-1006 | the locked part of upgrade admits a peer exactly when not closing and the node is in neither collection |
| `Network.Network.StartClose` | network/network.go:1019-1048 | StartClose sets closing, stops every tracked IP and empties the map, and nothing else |
| `Network.Network.StopTrackingIp` | network/tracked_ip.go:69-73 | stopping twice is stopping once |
| `Network.StopEach` | network/network.go:1027-1046 | the loop over the tracked IPs stops exactly those in the map |
| `SharedLocks.MutualExclusion` | chains/atomic/memory.go:62-72 | for any number of threads in any run, at most one is between GetSharedDatabase and ReleaseSharedDatabase for an ID, although the table entry may go before the mutex is unlocked |
| `SharedLocks.CountsAreHoldersAndWaiters` | chains/atomic/memory.go:74-100 | each count equals the number of threads that hold or wait for the lock, an entry exists exactly when there is such a thread, and releasing never meets an unknown lock |
| `SharedLocks.NoDeadlock` | chains/atomic/shared_memory.go:105-126 | while some thread has not finished, some thread can take a step |
| `SharedLocks.FindStep` | chains/atomic/shared_memory.go:105-117 | following owners of awaited locks, whose IDs ascend, ends at a thread that can move |
| `SharedLocks.StepDoesWork` | chains/atomic/memory.go:62-100 | every step lowers the total work left |
| `SharedLocks.RunsEnd` | chains/atomic/memory.go:62-100 | no run is longer than the work it starts with, so every thread finishes |
| `SharedLocks.NothingLeaks` | chains/atomic/memory.go:87-100 | when all threads have finished, the lock table is empty and no mutex is held |
| `SharedLocks.Memory.MakeLockFor` | chains/atomic/memory.go:74-85 | makeLock in place: the count goes up by one, a missing entry is made |
| `SharedLocks.Memory.ReleaseLockFor` | chains/atomic/memory.go:87-100 | releaseLock in place: the count goes down by one and the entry goes at zero; an unknown lock is reported |
| `Lru.LRU.PutEntry` | cache/lru_cache.go:80-106 | put refines the reference: the key moves to the back with the value and what exceeds the size goes from the front, for any Size, zero and negative included |
| `Lru.LRU.GetEntry` | cache/lru_cache.go:108-119 | get returns the reference value and makes the key the most recent |
| `Lru.LRU.EvictEntry` | cache/lru_cache.go:121-129 | evict removes just that key |
| `Lru.LRU.Flush` | cache/lru_cache.go:131-136 | flush empties map and list |
| `Lru.LRU.Resize` | cache/lru_cache.go:70-78 | the resize loop keeps exactly the most recent entries that fit |
| `Lru.RunsTrack` | cache/lru_cache.go:58-136 | after any run, with Size changed between calls: every entry holds the last value put since an evict or flush, entries are in order of last use, keys do not repeat, and the length is within Size after any operation |
| `Lru.MissingOnlyWhenFull` | cache/lru_cache.go:58-136 | after any run, with Size changed between calls: a key that holds a value is missing from the cache only if at some moment since its last put at least Size other keys that held a value had been used after it |
| `Lru.GetAnswers` | cache/lru_cache.go:108-119 | after any run a Get is answered with the last value put, if and only if the key is among the entries that Size leaves room for, and the key is then the most recent |
| `Lru.BoundedIsRecentEnd` | cache/lru_cache.go:80-106 | a cache of size n holds exactly the n keys put most recently, with their last values |
| `Lru.PutCommutesWithRecent` | cache/lru_cache.go:70-106 | putting into the recent end of a list of entries is the recent end of putting into the whole |
| `Lru.PutAbsent` | cache/lru_cache.go:80-106 | a new key at full size drops the front entry, the least recently used, and nothing else |
| `Lru.PutPresent` | cache/lru_cache.go:80-106 | a known key moves to the back and nothing is dropped |
| `EvictableLru.EvictableLRU.DeduplicateItem` | cache/unique_cache.go:58-84 | deduplicate in place: the items cached, the item handed out and the Evict calls are those of the reference, whose answers EveryAnswerRight states |
| `EvictableLru.EvictableLRU.Flush` | cache/unique_cache.go:86-93 | flush notifies every cached value once, front first, empties the cache and restores Size |
| `EvictableLru.EvictableLRU.Resize` | cache/unique_cache.go:47-56 | the resize loop notifies exactly what it drops, in order |
| `EvictableLru.DeduplicateMoves` | cache/unique_cache.go:58-84 | what is cached after a deduplicate together with what it notified is what was cached before together with the newcomer |
| `EvictableLru.FittingFiles` | cache/unique_cache.go:58-84 | a deduplicate answers with a value of the same key, keeps keys unique and filed under their own key, and stays within the size |
| `EvictableLru.EveryDepartureNotified` | cache/unique_cache.go:35-93 | over any run, Size changes and flushes included, each value that entered is cached or was notified, exactly once either way |
| `EvictableLru.EveryAnswerRight` | cache/unique_cache.go:35-93 | over any run every answer is the item last handed out for the key and not notified since, or the argument if there is none, and every Evict call goes to such an item |
| `EvictableLru.OneItemPerKey` | cache/unique_cache.go:58-84 | two answers for one key with no Evict of it between them are the same item |
| `EvictableLru.SameAsLru` | cache/unique_cache.go:58-84 | the items cached after any run are those of a plain LRU cache: the least recently used one leaves |
| `LinkedList.KeysNeverCollide` | database/linkeddb/linkeddb.go:423-427 | head key and node keys never coincide, nor do the keys of two nodes |
| `LinkedList.PutRefines` | database/linkeddb/linkeddb.go:88-133 | the nodes and head that Put writes lay out the list with a new key in front, or with the value replaced in place |
| `LinkedList.DeleteRefines` | database/linkeddb/linkeddb.go:135-199 | the nodes and head that Delete writes lay out the list without that key |
| `LinkedList.HoldsUnique` | database/linkeddb/linkeddb.go:366-416 | a store lays out at most one list, so what iteration yields is determined by the stored data |
| `LinkedList.RunRefines` | database/linkeddb/linkeddb.go:88-199 | after any run of puts and deletes the stored nodes and head are one acyclic doubly linked list, the reference sequence |
| `ListOrder.RunIsNewestFirst` | database/linkeddb/linkeddb.go:88-199 | after any run the list has exactly the keys put and not deleted since, with the values last put, in the order they came in, newest first |
| `LinkedList.PutBatch` | database/linkeddb/linkeddb.go:88-133 | the ordered batch that Put records, from the nodes it reads, makes that change |
| `LinkedList.DeleteBatch` | database/linkeddb/linkeddb.go:135-199 | so does the batch of Delete |
| `LinkedDb.LinkedDB.Put` | database/linkeddb/linkeddb.go:88-133 | Put leaves the reference list and both caches agreeing with the store; on an error, a failed batch write included, the list is the old one and the caches still agree; without a failed access there is no error |
| `LinkedDb.LinkedDB.Delete` | database/linkeddb/linkeddb.go:135-199 | Delete likewise |
| `LinkedDb.LinkedDB.Get` | database/linkeddb/linkeddb.go:80-86 | Get answers from the list, through the node cache |
| `LinkedDb.LinkedDB.Has` | database/linkeddb/linkeddb.go:73-78 | Has answers whether the list has the key |
| `LinkedDb.LinkedDB.Head` | database/linkeddb/linkeddb.go:216-226 | Head returns the first pair of the list |
| `LinkedDb.LinkedDB.IsEmpty` | database/linkeddb/linkeddb.go:201-207 | IsEmpty tells whether the list is empty |
| `LinkedDb.LinkedDB.GetHeadKey` | database/linkeddb/linkeddb.go:249-274 | the head cache, synced or not, gives the stored head |
| `LinkedDb.LinkedDB.GetNode` | database/linkeddb/linkeddb.go:289-320 | the node cache, of any size and with cached absences, gives the stored node |
| `LinkedDb.LinkedDB.WriteBatch` | database/linkeddb/linkeddb.go:344-357 | writeBatch moves the store to the pending state or leaves it, and the caches follow only a success |
| `LinkedDb.LinkedDB.RefreshCache` | database/linkeddb/linkeddb.go:344-357 | writing the updated nodes into the cache, in any order, makes it agree with the new store |
| `LinkedDb.LinkedDB.Relink` | database/linkeddb/linkeddb.go:135-199 | the three cases of Delete join the neighbours as the stored form requires |
| `LinkedDb.Iterator.Next` | database/linkeddb/linkeddb.go:366-416 | each Next yields the next pair of the list until the list ends or a read fails |
| `LinkedDb.Iterator.WithStart` | database/linkeddb/linkeddb.go:236-247 | an iterator with a start begins at that key if the lookup succeeds and finds it; it begins at the head if the key is not in the list, and also if the lookup fails, which is not reported |
| `AtomicState.RunAgrees` | chains/atomic/state.go:60-130 | after any run of puts and removes a key is in a trait's list exactly when its element is present and lists the trait, duplicated traits and tombstones included |
| `AtomicState.SetValueAgrees` | chains/atomic/state.go:60-98 | SetValue keeps index and values in agreement |
| `AtomicState.RemoveValueAgrees` | chains/atomic/state.go:100-130 | RemoveValue keeps index and values in agreement |
| `AtomicState.IndexedKeyHasValue` | chains/atomic/shared_memory.go:84-102 | a key that the index yields has a value with that trait |
| `AtomicState.RunGivesExpected` | chains/atomic/state.go:60-130 | operations on unregistered keys, each key put and removed at most once, all succeed and leave: put only present, remove only a tombstone, both absent |
| `AtomicState.RunRefuses` | chains/atomic/state.go:60-130 | from any space the operations fail if and only if one of them puts a key that is present by then or removes one that was removed ahead of its put, counting puts less removes; otherwise the count says what is left under every key |
| `AtomicState.OrderIndependence` | chains/atomic/state.go:60-130 | two orders of the same operations, each key put and removed at most once, both succeed on unregistered keys; and from any space, if both succeed, they leave the same values and the same trait membership |
| `Pagination.CollectKeys` | chains/atomic/state.go:144-170 | getKeys returns the page of the reference, with its last trait and key, for any limit, given which lookups of a start failed unreported; the page asked for if none did; without a failed access there is no error and no such lookup |
| `Pagination.AppendTraitKeys` | chains/atomic/state.go:172-193 | appendTraitKeys walks one list from the start key, or from the head after a failed lookup, skips keys seen before by hash, and stops when the room is used up |
| `Pagination.CollectCounts` | chains/atomic/state.go:144-170 | a page has no repeats and as many keys as the limit has gone down by |
| `Pagination.CollectCollects` | chains/atomic/state.go:144-170 | every key of a page is listed under a requested trait, and ahead of the start unless a lookup failed; a page that is not full has all keys ahead of its start |
| `Pagination.FullPageAdvances` | chains/atomic/state.go:144-193 | a full page has every key ahead of its start that is not ahead of its end |
| `Pagination.PageMovesForward` | chains/atomic/state.go:144-193 | with limit at least 2 what is ahead of the end of a full page is strictly less than what was ahead of its start |
| `Pagination.DrainFinds` | chains/atomic/shared_memory.go:73-103 | calling again from the last trait and key until a page is short ends, and finds exactly the keys ahead of the start |
| `Pagination.PagingIsComplete` | chains/atomic/shared_memory.go:73-103 | from the beginning, the pages together hold exactly the keys under a requested trait that do not stand before an empty key in its list |
| `Pagination.PagingOneTrait` | chains/atomic/state.go:144-193 | for one trait, paging finds all its keys if and only if the empty key is not in the list or is its first |
| `Pagination.VisitFailed` | database/linkeddb/linkeddb.go:236-247 | for any trait and any page so far: a visit whose lookup fails is the visit asked for if and only if it is not made, has no room, or finds every key before its start in the page already; otherwise the two go on with different keys, if the visit asked for has a new one |
| `Pagination.PageFailed` | database/linkeddb/linkeddb.go:236-247 | one more failed lookup, at any visit of any page: if it is harmless there the whole page is the same, and if it is not, and there was a new key to go on with, the whole pages differ |
| `Pagination.CaughtUp` | database/linkeddb/linkeddb.go:236-247 | lists on which a harmful failure makes no difference to the whole page, for want of a new key to go on with |
| `Pagination.FailedLookup` | database/linkeddb/linkeddb.go:236-247 | if the lookup fails at the first visit of the start trait, the page is still the one asked for if and only if the start key is not in the list, is its first key, or there is no room |
| `Pagination.FailedLookupExample` | database/linkeddb/linkeddb.go:236-247 | a list of three keys on which the failed lookup returns the first instead of the third |
| `Pagination.FailuresLoseNothing` | chains/atomic/shared_memory.go:73-103 | whichever lookups fail on whichever pages, a client that gets to a short page has every key that paging without failures finds, and no key that is not listed under a requested trait |
| `Pagination.PagingFindsCarriers` | chains/atomic/state.go:60-193 | over any space whose index and elements agree, with any failed lookups: the keys found are exactly those whose present element lists a requested trait |
| `Pagination.OneKeyPagesStandStill` | chains/atomic/state.go:172-193 | with limit 1 a page that starts on a listed key is that key alone and ends where it started, so paging does not advance |
| `Namespaces.SharedIdSymmetric` | chains/atomic/memory.go:103-112 | sharedID does not depend on the order of the two chains |
| `Namespaces.OutboundIsPeersInbound` | chains/atomic/prefixes.go:20-59 | the outbound space of one chain is the inbound space of the other if and only if the two are different chains |
| `Namespaces.OutboundDbIsPeersInbound` | chains/atomic/prefixes.go:20-59 | the same of the hashed prefixes of their value and index databases |
| `Namespaces.PrefixesOfLanes` | chains/atomic/prefixes.go:42-59 | the prefixes that inbound and outbound pick for a chain and its peer are those of its two spaces, a chain paired with itself included |
| `Namespaces.LanePrefixIdentifies` | database/prefixdb/db.go:40-62 | directions, pairs of chains, and value and index side have different hashed prefixes |
| `Namespaces.TraitPrefixIdentifies` | database/prefixdb/db.go:40-62 | trait lists of different directions or traits have different prefixes |
| `Namespaces.TraitPrefixApart` | database/prefixdb/db.go:40-62 | a trait list never shares a prefix with a value database |
| `Namespaces.AddressesNeverMeet` | database/prefixdb/db.go:199-215 | two addresses of shared memory with the same database key are the same address, given no hash collision on the inputs used for them |
| `Namespaces.HashedLayout` | database/prefixdb/db.go:40-62 | so the hashed prefixes give every address in play a byte key of its own |
| `Namespaces.SharedIdsDistinct` | chains/atomic/memory.go:103-112 | distinct peers of a chain have distinct shared IDs, so the sorted lock list has no repeats |
| `VersionDb.Database.Get` | database/versiondb/db.go:72-86 | Get reads the overlay over the database |
| `VersionDb.Database.Put` | database/versiondb/db.go:88-97 | Put changes what is read under that key only |
| `VersionDb.Database.Delete` | database/versiondb/db.go:99-108 | Delete removes that key from what is read |
| `VersionDb.Database.WriteBatch` | database/versiondb/db.go:301-316 | a batch written into the overlay changes what is read as its writes do in order |
| `VersionDb.Database.CommitBatch` | database/versiondb/db.go:227-253 | the commit batch, in whatever order the map is walked, turns the database into what was read through the overlay |
| `VersionDb.MergeBatches` | chains/atomic/writer.go:12-21 | WriteAll forms one batch: the base batch, then the others in order |
| `VersionDb.ReplayJoins` | database/versiondb/db.go:327-338 | replaying two batches one after the other is replaying them joined |
| `SharedSpaces.PutStoresList` | database/linkeddb/linkeddb.go:88-133 | in the byte-keyed database, reading back a trait list after the batch of Put gives the list with the key put, and no key outside that list has changed |
| `SharedSpaces.DeleteStoresList` | database/linkeddb/linkeddb.go:135-199 | Delete likewise |
| `SharedSpaces.SetValueStores` | chains/atomic/state.go:60-98 | on the byte-keyed database SetValue fails exactly if the element is present, and otherwise leaves the elements and linked lists of the abstract SetValue and changes no key outside its direction |
| `SharedSpaces.RemoveValueStores` | chains/atomic/state.go:100-130 | RemoveValue likewise; it fails exactly on a tombstone |
| `SharedSpaces.OtherLaneKept` | chains/atomic/prefixes.go:42-59 | changes to keys of one direction leave every other direction storing what it stored, because addresses in play have different keys |
| `SharedMemory.ApplyStores` | chains/atomic/shared_memory.go:105-146 | Apply succeeds exactly when the operations of every direction do, and gives each direction in the byte-keyed database its own operations: inbound removed, outbound put, every other pair of chains untouched |
| `SharedMemory.ApplyRefused` | chains/atomic/shared_memory.go:132-146 | Apply is refused if and only if some request to some peer puts an element that is present by then or removes one twice ahead of its put, as read from the database before the call |
| `SharedMemory.ApplyLeaves` | chains/atomic/shared_memory.go:121-146 | what Apply leaves under every key of every peer: inbound what the removes leave, outbound what the puts leave, whatever was there |
| `SharedMemory.ExchangeCancels` | chains/atomic/shared_memory.go:105-153 | what one chain puts for another and the other removes is gone after the two Apply calls, in either order |
| `SharedMemory.PutArrives` | chains/atomic/shared_memory.go:121-146 | what a chain puts for another under unregistered keys is what the other finds under its own inbound keys |
| `SharedMemory.ReachableLanes` | chains/atomic/shared_memory.go:105-153 | after any history of Apply calls by any chains, failed ones included, every direction of the database is one space whose index and elements agree |
| `SharedMemory.ReachableByHash` | chains/atomic/shared_memory.go:105-153 | the same under the hashed prefixes of the source, if the hash does not collide on what is hashed for the directions and traits in play |
| `SharedMemory.IndexedNeverFails` | chains/atomic/shared_memory.go:84-102 | in such a database every key in a trait's list has a present element with that trait |
| `ChainMemory.ChainMemory.Apply` | chains/atomic/shared_memory.go:105-153 | Apply is all or nothing over all peers, the chain itself included, and the caller's batches: on success the database has every peer's requests, taken in ascending order of shared ID, and then the batches; on any error it is unchanged; without a database error it succeeds exactly when the requests do, and is refused as a duplicate exactly when one of them puts a present element or removes one twice ahead of its put |
| `ChainMemory.ChainMemory.Gather` | chains/atomic/shared_memory.go:121-146 | the loop over the sorted shared IDs puts into the overlay exactly the removes, at the inbound keys, and the puts, at the outbound keys, of the peers, or reports a duplicate |
| `ChainMemory.ChainMemory.Get` | chains/atomic/shared_memory.go:52-71 | Get returns the values at the inbound keys; it says not found only if one of them has no present element, and without a database error exactly then |
| `ChainMemory.ChainMemory.Indexed` | chains/atomic/shared_memory.go:73-103 | Indexed returns the values under the page of keys of the space that the inbound keys store, with its last trait and key, and never meets a listed key without an element; without a failed access it answers the page asked for |
| `ChainMemory.ChainMemory.ReadList` | database/linkeddb/linkeddb.go:366-416 | following the stored pointers from the head key yields the list |
| `ChainMemory.IndexedFindsAll` | chains/atomic/shared_memory.go:73-103 | after any history of Apply calls, a client that calls Indexed until a page is short has exactly the keys of the elements that carry a requested trait, whichever lookups failed, as long as no empty key hides part of a list, which none does when no present element has the empty key |
| `ChainMemory.Plan` | chains/atomic/shared_memory.go:106-117 | the shared IDs come out strictly sorted, one for each peer |
| `ChainMemory.SetInto` | chains/atomic/state.go:60-98 | SetValue through the overlay is SetValue on what is read through it; it answers with a duplicate exactly if the element is present, and then writes nothing; whatever fails, only keys of its direction are written |
| `ChainMemory.RemoveInto` | chains/atomic/state.go:100-130 | RemoveValue likewise, with a duplicate exactly on a tombstone |
| `SharedRuns.Serializable` | chains/atomic/shared_memory.go:105-153 | however Apply calls and readers from any number of threads interleave, at every moment the database is what the committed calls leave when run one after the other in the order of their writes |
| `SharedRuns.CommitSucceeds` | chains/atomic/shared_memory.go:147-153 | when a call is written, the whole call would have succeeded on the database as it was, and the write does what the whole call would |
| `SharedRuns.DuplicateIsReal` | chains/atomic/shared_memory.go:132-146 | a call that reports a duplicate would fail on the database as it is at that moment |
| `SharedRuns.ReadsAreOneSnapshot` | chains/atomic/shared_memory.go:52-102 | what a Get, an Indexed or an operation of Apply has read of the database at different moments is all there at any one moment while the thread is at work |
| `SharedRuns.LanesAlwaysAgree` | chains/atomic/shared_memory.go:105-153 | at every moment of every run every direction is one space whose index and elements agree |
| `SharedRuns.NoDeadlock` | chains/atomic/shared_memory.go:105-153 | while some thread has not finished, some thread can take a lock step, an operation or its write, without any failure to help it |
| `SharedRuns.RunsEnd` | chains/atomic/shared_memory.go:105-153 | every run ends: besides the keys it reads, it makes no more moves than the locks, operations and threads it starts with |
| `SharedRuns.BoundedReads` | chains/atomic/shared_memory.go:105-153 | with the reads of each thread bounded, one number bounds the length of every run of the same calls |
| `SharedRuns.StuckIsFinished` | chains/atomic/shared_memory.go:105-153 | a run that cannot go on has ended: every thread has released its locks, every call has been written, reported as a duplicate or given up, and the database is what the written ones leave |
| `SharedRuns.ApplyConfined` | chains/atomic/prefixes.go:42-59 | every byte key that Apply changes belongs to a direction between the chain and one of its peers |
| `SharedRuns.StepLaneLocal` | chains/atomic/state.go:60-130 | on databases that agree on a direction an operation there succeeds or fails alike, leaves them agreeing, and changes nothing elsewhere |
| `SharedRuns.InvKept` | chains/atomic/shared_memory.go:105-153 | each step of each thread keeps: its overlay over the present database is the result of its operations on the present database |
| `RemoteBatch.Client.Write` | database/rpcdb/db_client.go:170-218 | batch.Write succeeds only with the database as if the recorded puts and deletes had been applied in order; on an error the database is unchanged or, when only the last reply was lost, has all of them; every chunk is within the limit or a single element; with no lost call and no failed access it succeeds |
| `RemoteBatch.Client.Take` | database/rpcdb/db_client.go:186-208 | one write that is not overridden: a chunk that would grow too large is sent first, the database stays as it was |
| `RemoteBatch.Server.WriteBatch` | database/rpcdb/db_server.go:104-141 | a chunk that continues only adds to its batch; the last one writes the whole batch at once; an error drops the batch and leaves the database |
| `RemoteBatch.CoversOverwritten` | database/rpcdb/db_client.go:178-185 | a write that a later one overrides may be dropped |
| `RemoteBatch.CoversAdded` | database/rpcdb/db_client.go:186-208 | a write to a new key may join the chunk in any place: puts before deletes does not matter |
| `RemoteBatch.SameMeaningReplays` | database/rpcdb/db_client.go:170-218 | write lists with the same last write for each key leave the same database |
| `RemoteBatch.InterleavingsAreSequential` | database/rpcdb/db_server.go:104-141 | however the chunks of several batches interleave, the database is as if each batch had been applied as a whole when its last chunk arrived |
| `Codec.RoundTrip` | codec/reflectcodec/type_codec.go:86-372 | for every value that marshal accepts whose slices are within MaxInt32, and every suffix, unmarshal at its type gives it back, nil slices as empty, and leaves the suffix |
| `Codec.RoundTripExactly` | codec/reflectcodec/type_codec.go:138-160 | the round trip holds if and only if no slice of the value has more than MaxInt32 elements |
| `Codec.LongSliceRefused` | codec/reflectcodec/type_codec.go:274-290 | a slice of 2^31 empty structs marshals and does not unmarshal |
| `Codec.UnmarshalConsumesExactly` | codec/reflectcodec/type_codec.go:195-214 | Unmarshal of exactly the marshalled bytes gives the value if and only if its slices have at most MaxInt32 elements; of anything longer it is then an error |
| `Codec.DecodeSound` | codec/reflectcodec/type_codec.go:218-372 | whatever the bytes, a value that comes out is of the type and has no nil slice and none above MaxInt32 |
| `Codec.CanonicalExactly` | codec/reflectcodec/type_codec.go:86-372 | a value that unmarshal gives marshals if and only if no array in it is longer than the maximum slice length, and then to the very bytes it came from |
| `Codec.OneEncoding` | codec/reflectcodec/type_codec.go:218-372 | no value has two accepted encodings: byte strings that unmarshal to the same value are the same, also when marshal would refuse the value |
| `Codec.LongArrayStuck` | codec/reflectcodec/type_codec.go:161-176 | an array one longer than the maximum unmarshals and does not marshal |
| `Codec.ManagedRoundTrip` | codec/manager.go:93-146 | what the manager marshals at a version it unmarshals, at that version, if and only if the slices have at most MaxInt32 elements |
| `Codec.OctetsOneByOne` | codec/reflectcodec/type_codec.go:161-176 | bytes of an array marshalled one by one are the block that unmarshal reads |
| `Codec.RoundTripNumber` | codec/reflectcodec/type_codec.go:96-119 | integers of every width come back, signed ones through their unsigned residue |
| `Codec.RoundTripText` | utils/wrappers/packing.go:277-291 | strings up to 65535 bytes come back |
| `BigEndian.NumberOfDigits` | utils/wrappers/packing.go:110-176 | big-endian digits read back as the number |
| `BigEndian.DigitsOfNumber` | utils/wrappers/packing.go:110-176 | and the number has just those digits |
| `BigEndian.DigitAt` | utils/wrappers/packing.go:110-164 | byte i of w is the number divided by 256 to the power w-1-i, modulo 256: the most significant byte first |
| `BigEndian.NumberIsWeighted` | utils/wrappers/packing.go:121-176 | the number read is the sum of the bytes times their weights, the first byte weighing most |
| `WireFormat.EncodeWrites` | codec/reflectcodec/type_codec.go:86-193 | marshal gives some bytes if and only if they are the layout of the value and the value can be written: bool one byte, strings two bytes of length and at most 65535, slices four bytes of length within the maximum, interfaces four bytes of type ID, items in order, no nil |
| `WireFormat.ManagedWrites` | codec/manager.go:93-118 | the manager gives two bytes of version and then that layout, or an error exactly if there is no such codec, no layout, or the whole is above the maximum size |
| `BigEndian.SignedRoundTrip` | codec/reflectcodec/type_codec.go:220-267 | truncation to unsigned and back to signed is the identity on the signed range |
| `ReflectCodec.Marshal` | codec/reflectcodec/type_codec.go:86-191 | marshal succeeds exactly when the value has an encoding that fits the packer, and then appends it |
| `ReflectCodec.MarshalSlice` | codec/reflectcodec/type_codec.go:138-160 | the slice case: length, then a block of bytes or element by element |
| `ReflectCodec.MarshalFields` | codec/reflectcodec/type_codec.go:177-187 | the struct case: fields in order, each with its own maximum length |
| `ReflectCodec.Unmarshal` | codec/reflectcodec/type_codec.go:218-372 | unmarshal fails exactly when parsing does, else gives the parsed value and moves the offset past it |
| `ReflectCodec.UnmarshalSlice` | codec/reflectcodec/type_codec.go:274-305 | the slice case, with its two length checks |
| `ReflectCodec.UnmarshalAll` | codec/reflectcodec/type_codec.go:296-323 | the loop over the elements |
| `ReflectCodec.UnmarshalFields` | codec/reflectcodec/type_codec.go:342-354 | the loop over the fields |
| `ReflectCodec.UnmarshalBytes` | codec/reflectcodec/type_codec.go:195-214 | the entry point: left-over bytes are an error |
| `ReflectCodec.MarshalVersioned` | codec/manager.go:93-115 | two version bytes and the encoding, or an error exactly when the version is unknown, the value has no encoding, or both together exceed the maximum size |
| `ReflectCodec.UnmarshalVersioned` | codec/manager.go:119-146 | the size check, the version and the codec it selects, and no left-over bytes |
| `Packing.Packer.PackFixedBytes` | utils/wrappers/packing.go:203-211 | appends the bytes, or fails exactly when they do not fit |
| `Packing.Packer.PackNumber` | utils/wrappers/packing.go:87-164 | appends the digits, byte i having the weight 256 to the power w-1-i, or fails exactly when they do not fit |
| `Packing.Packer.Expand` | utils/wrappers/packing.go:70-84 | makes room behind what is written, or fails exactly above the maximum size |
| `Packing.Packer.PackStr` | utils/wrappers/packing.go:277-285 | length and bytes, or fails exactly for a string that is too long or does not fit |
| `Packing.Packer.UnpackNumber` | utils/wrappers/packing.go:98-176 | reads the number, the first byte weighing most, and moves on, or fails exactly when too few bytes are left |
| `Packing.Packer.UnpackBool` | utils/wrappers/packing.go:188-199 | accepts 0 and 1 only |
| `LinearCodec.RegisterKeepsInverse` | codec/linearcodec/codec.go:74-87 | a registration keeps the two type maps inverse if and only if its type ID is not taken |
| `LinearCodec.StepBackOverwrites` | codec/linearcodec/codec.go:66-70 | skipping by -1 between two registrations gives both types one ID |
| `LinearCodec.RunKeepsInverse` | codec/linearcodec/codec.go:66-87 | after any registrations and forward skips within the 32-bit IDs the maps are inverse bijections |
| `LinearCodec.RunAssigns` | codec/linearcodec/codec.go:66-87 | after any calls, with any skips: the first registration of a type gives it the next ID modulo 2^32, later ones change nothing, and an ID stands for the type that got it last |
| `LinearCodec.RunServesCodec` | codec/linearcodec/codec.go:89-119 | such a registry is what the round trip of interfaces needs |
| `LinearCodec.TypeRegistry.RegisterType` | codec/linearcodec/codec.go:74-87 | RegisterType in place: a known type is refused, and a new one keeps the maps inverse exactly when its ID is free |
| `LinearCodec.TypeRegistry.SkipRegistrations` | codec/linearcodec/codec.go:66-70 | SkipRegistrations in place, modulo 2^32 |
| `Genesis.SplitAllocations` | genesis/genesis.go:455-516 | the three nested loops compute the split, with no overflow and no underflow in uint64 |
| `Genesis.SplitConserves` | genesis/genesis.go:455-516 | for every choice of owners and lock times the groups hold what the allocations held |
| `Genesis.SplitIsExact` | genesis/genesis.go:455-516 | there are exactly numSplits groups if and only if something is staked or numSplits is 1; each but the last totals total / numSplits and the last has the rest |
| `Genesis.SplitInOrder` | genesis/genesis.go:465-516 | the groups laid end to end are the allocations, token by token in order: staker i has the i-th stretch of nodeWeight tokens and the last one the rest |
| `Genesis.SplitNoInitial` | genesis/genesis.go:469-505 | no allocation in a group keeps an initial amount, which the X-chain already has |
| `Genesis.ChosenAre` | genesis/genesis.go:331-335 | the allocations split among the stakers are exactly those of the initially staked addresses, each as often as it is listed |
| `Genesis.FillConserves` | genesis/genesis.go:477-497 | closing groups moves amounts and loses none |
| `Genesis.FillGroups` | genesis/genesis.go:477-497 | the innermost loop |
| `Genesis.InitialSupply` | genesis/config.go:126-142 | InitialSupply is the sum of all amounts, or an error exactly when that exceeds 2^64-1 |
| `Genesis.HandOut` | genesis/genesis.go:250-395 | what FromConfig hands out on the X-chain, on the P-chain and to the stakers is the initial supply, and the stakers get the exact split, one group each: total / stakers, and the rest for the last, none of weight 0; an error exactly when the supply overflows, a panic exactly when there is no staker, or several and nothing staked, and otherwise a refusal by BuildGenesis exactly when less is staked than there are stakers |
| `Genesis.AllWeigh` | vms/platformvm/static_service.go:236-275 | BuildGenesis accepts the stakes if and only if every one weighs more than 0 |
| `Genesis.SharesWeigh` | vms/platformvm/static_service.go:273-275 | every group of the exact split weighs more than 0 if and only if at least as much is staked as there are stakers |
| `Genesis.Stake` | genesis/genesis.go:356-395 | the stakes of the validators sum to the staked total, or it panics exactly when there is no staker, or several and nothing staked |
| `Genesis.SupplyParts` | genesis/genesis.go:269-354 | initial amounts in any order, unlocks of those who do not stake and of those who do make up the supply |
| `Router.Table.AddRouter` | api/server/router.go:61-76 | a reserved base is refused; otherwise handlers are kept, what is new is this endpoint with this handler under routes that the base reaches, and all that it reaches have it; it succeeds if and only if the base is not reserved, nothing it reaches had the endpoint, and no alias list it reaches has a repeat; closure and one base per alias are kept |
| `Router.Table.AddAlias` | api/server/router.go:108-137 | refused as a whole if an alias is reserved; otherwise the aliases are reserved and added, and endpoints of the base are copied with their handlers to what it reaches; it succeeds if and only if no alias is reserved and, for every endpoint of the base, nothing that the aliases reach has it and they reach no route twice; on success each alias serves what the base serves; closure and one base per alias are kept |
| `Router.Table.ForceAdd` | api/server/router.go:78-106 | the recursion ends on any alias graph, adds the endpoint exactly along it, leaves open only what its callers are still filling, and succeeds if and only if nothing it reaches had the endpoint and no route is reached in two ways |
| `Router.TreeFromBase` | api/server/router.go:114-124 | from a base that is not an alias no route is reached in two ways if and only if no alias list it reaches has a repeat, because every alias has one base |
| `Router.ClosedReaches` | api/server/router.go:98-105 | in a closed table an endpoint of a base is registered under everything the base reaches, over cycles too |
| `Router.OwnedAfter` | api/server/router.go:114-124 | new aliases that were not reserved get this base, and every alias still has exactly one |
| `Router.Table.Handler` | api/server/router.go:46-59 | GetHandler tells unknown base, unknown endpoint and the handler apart |
| `Bits.EqualSubsetIs` | ids/bits.go:21-62 | for a start of zero or more EqualSubset holds if and only if the range is empty or ends within the ID and Bit agrees on all of it |
| `Bits.NegativeStart` | ids/bits.go:21-62 | for a negative start: within seven bits below zero the first byte is not compared; further down it panics, unless a difference in the bytes between is met first |
| `Bits.NegativeStartMisses` | ids/bits.go:36-52 | with start -1 two IDs that differ in bit 0 are called equal |
| `Bits.FirstDifferenceSubset` | ids/bits.go:67-128 | the least index in the range at which Bit differs; none exactly when the range is empty, ends beyond the ID or agrees throughout; a start within seven below zero leaves out the first byte, one further down panics |
| `Bits.DifferenceBetween` | ids/bits.go:107-115 | the loop over the bytes between the first and the last |
| `Bits.MaskedEqual` | ids/bits.go:40-61 | a masked comparison of two bytes is the comparison of the bits between the two ends |
| `Bits.SameInThree` | ids/bits.go:32-61 | a range over several bytes is the end of the first, the bytes between and the start of the last |
| `Bits.FirstInByte` | ids/bits.go:84-97 | the trailing zeros of the masked difference are the first bit that differs |
| `Bag.RunOk` | ids/bag.go:38-80 | after any additions and threshold changes: counts and size are those of the multiset of votes, the mode has maximal count and was the first to reach it, and the threshold set is exactly the IDs at or above the threshold |
| `Bag.AddCountOk` | ids/bag.go:62-80 | every addition keeps all of that; one of zero or less changes nothing |
| `Bag.SetThresholdOk` | ids/bag.go:38-50 | so does every threshold |
| `Bag.Bag.AddCount` | ids/bag.go:62-80 | AddCount in place |
| `Bag.Bag.SetThreshold` | ids/bag.go:38-50 | SetThreshold in place, its loop included |
| `Bag.Bag.AddEach` | ids/bag.go:53-57 | Add adds each ID once |
| `Bag.Bag.Equals` | ids/bag.go:102-112 | Equals, which looks at one side only, tells whether the two bags hold the same votes |
| `Bag.Filter` | ids/bag.go:125-133 | Filter keeps exactly the votes that EqualSubset accepts, with their counts, and panics exactly when EqualSubset does for some vote |
| `Bag.Split` | ids/bag.go:138-145 | Split parts the votes by the bit, the two bags together being the votes; it panics if and only if there is a vote and the bit is beyond the ID |
| `Bag.UnsortedEquals` | ids/slice.go:21-33 | UnsortedEquals is true exactly for equal multisets |
| `Indexer.RunOk` | indexer/index.go:75-170 | across any history of accepts, failed commits and restarts the database holds exactly the list of what was committed, indices 0 to next-1, and the overlay on it the list of what was accepted |
| `Indexer.Bijection` | indexer/index.go:145-160 | index to container and container to index are inverse |
| `Indexer.ReacceptIsNothing` | indexer/index.go:125-140 | accepting a container again changes nothing |
| `Indexer.DurableGrows` | indexer/index.go:164-170 | a committed container keeps its index for good |
| `Indexer.Index.constructor` | indexer/index.go:75-108 | a restart resumes from the committed list |
| `Indexer.Index.AcceptContainer` | indexer/index.go:125-170 | Accept is an accept event of the history, committed or not, or changes nothing; without a failed access it is committed |
| `Indexer.Index.ContainerByIndex` | indexer/index.go:184-191 | the container at an accepted index, else none |
| `Indexer.Index.IndexOf` | indexer/index.go:249-254 | the index of an accepted container, else none |
| `Indexer.Index.ContainerById` | indexer/index.go:256-266 | the container of an accepted ID, else none |
| `Indexer.Index.LastAccepted` | indexer/index.go:270-279 | the last accepted container, else none |
| `Indexer.Index.ContainerRange` | indexer/index.go:212-246 | the contiguous accepted run from start, as long as asked for and capped at the last, or that many blank containers when the uint64 sum wraps around; no containers asked for, more than 1024, none accepted and a start beyond the last are the four errors |
| `Indexer.RangeExactly` | indexer/index.go:212-246 | a request that passes the checks gets the accepted run if and only if the sum does not wrap around |
| `Indexer.SizeIsCount` | indexer/index.go:230-234 | the size computed in int arithmetic is the number of containers, also when the ends lie on different sides of 2^63 or of 2^64 |
| `Indexer.BlankRange` | indexer/index.go:230-246 | a history after which a request is answered with blank containers |

## Left out

- TLS, sockets, NAT, HTTP, gRPC, timers and goroutine scheduling: only the state steps they trigger are modelled.
- leveldb, rocksdb, encdb, meterdb and metrics: the base database is a map.
- Random and floating-point parts: back-off jitter (any delay may result), uptime, peer sampling.
- Configuration, flags, node wiring, API services and clients, mocks.
- Reflection and struct tags: each struct type has a fixed field list with maximum lengths; types that refer to themselves through pointers alone have no place in `Codec.Ty`.
- Kinds that the codec refuses (int, uint, floats, maps, functions, channels) have no `Codec.Ty`; nor does a top-level nil.
- Message packing and parsing; signatures, passwords, tokens; the beacon manager.
- The strength of the hash: absence of collisions on the inputs used is a precondition where keys must be told apart.
- Iterators of versiondb, prefixdb and rpcdb: nothing modelled here iterates over those databases. The buffer pool of prefixdb: keys are values.
- The bytes of stored values: the database maps byte keys to decoded elements, list nodes and head pointers; `Codec` has the round trip of encodings.
- Route naming in the HTTP multiplexer: registering a URL there always succeeds.
- Overflow of Go ints that count events, such as batch IDs, type counts of a bag and the next accepted index: unbounded, except where a row says otherwise.
- LinkedDb.LinkedDB.Get: on a failed read nothing is promised about the answer, since the database may fail at any access.
- Pagination.CollectKeys: when a read of the iteration itself fails, nothing is promised of the page, since the source returns an error instead.
- ChainMemory.ChainMemory.Apply: locks are not taken in the method; SharedRuns interleaves the calls under the locks of SharedLocks, in the order that this method states.
- ChainMemory.ChainMemory.Indexed: each requested list is read as a whole before the page is formed, while the source reads as it goes; SharedRuns.ReadsAreOneSnapshot is why that makes no difference.
- SharedRuns.Serializable: an operation on one element takes effect in its overlay as one step; its reads may come at earlier moments, which SharedRuns.ReadsAreOneSnapshot shows to make no difference.
