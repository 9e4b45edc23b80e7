/** The SharedMemory of one chain, chains/atomic/shared_memory.go, in place over the node's database. */
module ChainMemory {
  import opened Options
  import opened ByteStrings
  import opened Namespaces
  import opened VersionDb
  import opened SharedSpaces
  import opened SharedMemory
  import AtomicState
  import LinkedList
  import Pagination
  import opened Faults

  /*
  Every read and write goes to a byte key: the prefix that prefixes.go picks for this chain and its peer
  (`inbound` or `outbound`, smaller or larger), hashed as prefixdb does, and the key inside. The methods
  are proved against the functions of SharedMemory under the layout of those keys.
  */

  /** The versiondb that Apply works on, and how an operation on it may end. */
  type Overlay = VersionDb.Database<Bytes, Cell>
  datatype Status = Ok | Duplicated | DatabaseError

  // ---- keys ---------------------------------------------------------------------------------

  /** The valueDB and indexDB of a state, by their prefixes. */
  datatype Dbs = Dbs(value: Bytes, index: Bytes)

  function Inbound(h: Hash, mine: Bytes, peer: Bytes): (dbs: Dbs)
    ensures dbs == DbsOf(h, InboundLane(mine, peer))
  {
    PrefixesOfLanes(h, Value, mine, peer);
    PrefixesOfLanes(h, Index, mine, peer);
    Dbs(InboundDb(h, Value, mine, peer), InboundDb(h, Index, mine, peer))
  }

  function Outbound(h: Hash, mine: Bytes, peer: Bytes): (dbs: Dbs)
    ensures dbs == DbsOf(h, OutboundLane(mine, peer))
  {
    PrefixesOfLanes(h, Value, mine, peer);
    PrefixesOfLanes(h, Index, mine, peer);
    Dbs(OutboundDb(h, Value, mine, peer), OutboundDb(h, Index, mine, peer))
  }

  function DbsOf(h: Hash, l: Lane): Dbs {
    Dbs(LanePrefix(h, Value, l), LanePrefix(h, Index, l))
  }

  /** A write of linkeddb, under the prefix of the trait's list. */
  function Keyed(prefix: Bytes, w: ListWrite): Write<Bytes, Cell> {
    match w
    case PutNodeW(k, n) => Write(prefix + LinkedList.NodeKey(k), Some(NodeCell(n)))
    case DeleteNodeW(k) => Write(prefix + LinkedList.NodeKey(k), None)
    case PutHeadW(k) => Write(prefix + LinkedList.HEAD_KEY, Some(HeadCell(k)))
    case DeleteHeadW => Write(prefix + LinkedList.HEAD_KEY, None)
  }

  function KeyedAll(prefix: Bytes, ws: seq<ListWrite>): Batch {
    seq(|ws|, i requires 0 <= i < |ws| => Keyed(prefix, ws[i]))
  }

  lemma KeyedIsStored(h: Hash, l: Lane, t: Trait, ws: seq<ListWrite>)
    ensures KeyedAll(TraitPrefix(h, l, t), ws) == StoredAll(KeysBy(h), l, t, ws)
  {
  }

  /** What was added to the overlay belongs to the lane. */
  ghost predicate Grown(h: Hash, l: Lane, before: set<Bytes>, after: set<Bytes>) {
    forall x :: x in after ==> x in before || KeyOfLane(h, l, x)
  }

  ghost predicate KeyOfLane(h: Hash, l: Lane, x: Bytes) {
    exists a: Address :: a.lane == l && KeysBy(h)(a) == x
  }

  lemma BatchGrown(h: Hash, l: Lane, t: Trait, ws: seq<ListWrite>, before: set<Bytes>)
    ensures Grown(h, l, before, before + KeysOf(StoredAll(KeysBy(h), l, t, ws)))
  {
    var batch := StoredAll(KeysBy(h), l, t, ws);
    forall x | x in KeysOf(batch)
      ensures KeyOfLane(h, l, x)
    {
      var i :| 0 <= i < |batch| && batch[i].key == x;
      var a := if ws[i].PutNodeW? || ws[i].DeleteNodeW? then Address.NodeAt(l, t, ws[i].key) else HeadAt(l, t);
      assert KeysBy(h)(a) == x;
    }
  }

  // ---- a state over the overlay -------------------------------------------------------------

  method ReadElement(vdb: Overlay, dbs: Dbs, k: Key, ghost h: Hash, ghost l: Lane) returns (e: Option<AtomicState.DbElement>)
    requires dbs == DbsOf(h, l)
    ensures e == ElementIn(vdb.View(), KeysBy(h), l, k)
  {
    var c := vdb.Get(dbs.value + k);
    assert dbs.value + k == KeysBy(h)(ValueAt(l, k));
    e := ElementOf(c);
  }

  method ReadNode(vdb: Overlay, prefix: Bytes, k: Key, ghost h: Hash, ghost l: Lane, ghost t: Trait) returns (n: Option<ListNode>)
    requires prefix == TraitPrefix(h, l, t)
    ensures n == NodeIn(vdb.View(), KeysBy(h), l, t, k)
  {
    var c := vdb.Get(prefix + LinkedList.NodeKey(k));
    assert prefix + LinkedList.NodeKey(k) == KeysBy(h)(Address.NodeAt(l, t, k));
    n := NodeOf(c);
  }

  method ReadUnder(vdb: Overlay, prefix: Bytes, k: Option<Key>, ghost h: Hash, ghost l: Lane, ghost t: Trait) returns (n: Option<ListNode>)
    requires prefix == TraitPrefix(h, l, t)
    ensures n == NodeUnder(vdb.View(), KeysBy(h), l, t, k)
  {
    if k.None? {
      return None;
    }
    n := ReadNode(vdb, prefix, k.value, h, l, t);
  }

  method ReadHead(vdb: Overlay, prefix: Bytes, ghost h: Hash, ghost l: Lane, ghost t: Trait) returns (k: Option<Key>)
    requires prefix == TraitPrefix(h, l, t)
    ensures k == HeadIn(vdb.View(), KeysBy(h), l, t)
  {
    var c := vdb.Get(prefix + LinkedList.HEAD_KEY);
    assert prefix + LinkedList.HEAD_KEY == KeysBy(h)(HeadAt(l, t));
    k := HeadOf(c);
  }

  /** linkeddb Put and Delete on the list of a trait; not ok when a read or the write fails. */
  method PutInList(vdb: Overlay, h: Hash, index: Bytes, t: Trait, k: Key, ghost l: Lane, sound: bool) returns (ok: bool)
    requires index == LanePrefix(h, Index, l)
    modifies vdb`mem
    ensures ok ==> vdb.View() == Replay(old(vdb.View()), PutBatch(old(vdb.View()), KeysBy(h), l, t, k))
    ensures Grown(h, l, old(vdb.mem.Keys), vdb.mem.Keys)
    ensures sound ==> ok
  {
    var fault := Fault(sound);
    if fault {
      return false;
    }
    var prefix := NewOn(h, index, t);
    var existing := ReadNode(vdb, prefix, k, h, l, t);
    var head := ReadHead(vdb, prefix, h, l, t);
    var headNode := ReadUnder(vdb, prefix, head, h, l, t);
    var ws := LinkedList.PutWrites(existing, head, headNode, k, ());
    KeyedIsStored(h, l, t, ws);
    BatchGrown(h, l, t, ws, vdb.mem.Keys);
    vdb.WriteBatch(KeyedAll(prefix, ws));
    return true;
  }

  method DeleteInList(vdb: Overlay, h: Hash, index: Bytes, t: Trait, k: Key, ghost l: Lane, sound: bool) returns (ok: bool)
    requires index == LanePrefix(h, Index, l)
    modifies vdb`mem
    ensures ok ==> vdb.View() == Replay(old(vdb.View()), DeleteBatch(old(vdb.View()), KeysBy(h), l, t, k))
    ensures Grown(h, l, old(vdb.mem.Keys), vdb.mem.Keys)
    ensures sound ==> ok
  {
    var fault := Fault(sound);
    if fault {
      return false;
    }
    var prefix := NewOn(h, index, t);
    var cur := ReadNode(vdb, prefix, k, h, l, t);
    var previous := ReadUnder(vdb, prefix, if cur.Some? then cur.value.previous else None, h, l, t);
    var next := ReadUnder(vdb, prefix, if cur.Some? then cur.value.next else None, h, l, t);
    var ws := LinkedList.DeleteWrites(cur, previous, next, k);
    KeyedIsStored(h, l, t, ws);
    BatchGrown(h, l, t, ws, vdb.mem.Keys);
    vdb.WriteBatch(KeyedAll(prefix, ws));
    return true;
  }

  method PutTraitsInto(vdb: Overlay, h: Hash, index: Bytes, traits: seq<Trait>, k: Key, ghost l: Lane, sound: bool) returns (ok: bool)
    requires index == LanePrefix(h, Index, l)
    modifies vdb`mem
    ensures ok ==> vdb.View() == PutTraits(old(vdb.View()), KeysBy(h), l, traits, k)
    ensures Grown(h, l, old(vdb.mem.Keys), vdb.mem.Keys)
    ensures sound ==> ok
  {
    ghost var b := vdb.View();
    for i := 0 to |traits|
      invariant vdb.View() == PutTraits(b, KeysBy(h), l, traits[..i], k)
      invariant Grown(h, l, old(vdb.mem.Keys), vdb.mem.Keys)
    {
      assert traits[..i + 1][..i] == traits[..i];
      var put := PutInList(vdb, h, index, traits[i], k, l, sound);
      if !put {
        return false;
      }
    }
    assert traits[..|traits|] == traits;
    return true;
  }

  method DeleteTraitsInto(vdb: Overlay, h: Hash, index: Bytes, traits: seq<Trait>, k: Key, ghost l: Lane, sound: bool) returns (ok: bool)
    requires index == LanePrefix(h, Index, l)
    modifies vdb`mem
    ensures ok ==> vdb.View() == DeleteTraits(old(vdb.View()), KeysBy(h), l, traits, k)
    ensures Grown(h, l, old(vdb.mem.Keys), vdb.mem.Keys)
    ensures sound ==> ok
  {
    ghost var b := vdb.View();
    for i := 0 to |traits|
      invariant vdb.View() == DeleteTraits(b, KeysBy(h), l, traits[..i], k)
      invariant Grown(h, l, old(vdb.mem.Keys), vdb.mem.Keys)
    {
      assert traits[..i + 1][..i] == traits[..i];
      var deleted := DeleteInList(vdb, h, index, traits[i], k, l, sound);
      if !deleted {
        return false;
      }
    }
    assert traits[..|traits|] == traits;
    return true;
  }

  /** state.SetValue. A database failure may come at any point; whatever happens, only keys of the lane
      are written, and a duplicate writes nothing. */
  method SetInto(vdb: Overlay, h: Hash, dbs: Dbs, e: AtomicState.Element, ghost l: Lane, sound: bool) returns (r: Status)
    requires dbs == DbsOf(h, l)
    modifies vdb`mem
    ensures r == Ok ==> SetValue(old(vdb.View()), KeysBy(h), l, e) == Some(vdb.View())
    ensures r == Duplicated ==> SetValue(old(vdb.View()), KeysBy(h), l, e) == None && vdb.mem == old(vdb.mem)
    ensures r != DatabaseError ==> (r == Duplicated <==> Readable(old(vdb.View()), KeysBy(h), l, e.key))
    ensures Grown(h, l, old(vdb.mem.Keys), vdb.mem.Keys)
    ensures sound ==> r != DatabaseError
  {
    var fault := Fault(sound);
    if fault {
      return DatabaseError;
    }
    assert dbs.value + e.key == KeysBy(h)(ValueAt(l, e.key));
    var was := ReadElement(vdb, dbs, e.key, h, l);
    if was.Some? {
      if !was.value.present {
        vdb.Delete(dbs.value + e.key);
        return Ok;
      }
      return Duplicated;
    }
    var ok := PutTraitsInto(vdb, h, dbs.index, e.traits, e.key, l, sound);
    if !ok {
      return DatabaseError;
    }
    vdb.Put(dbs.value + e.key, ElementCell(AtomicState.DbElement(true, e.value, e.traits)));
    return Ok;
  }

  /** state.RemoveValue. */
  method RemoveInto(vdb: Overlay, h: Hash, dbs: Dbs, k: Key, ghost l: Lane, sound: bool) returns (r: Status)
    requires dbs == DbsOf(h, l)
    modifies vdb`mem
    ensures r == Ok ==> RemoveValue(old(vdb.View()), KeysBy(h), l, k) == Some(vdb.View())
    ensures r == Duplicated ==> RemoveValue(old(vdb.View()), KeysBy(h), l, k) == None && vdb.mem == old(vdb.mem)
    ensures r != DatabaseError ==>
              (r == Duplicated <==> ElementIn(old(vdb.View()), KeysBy(h), l, k).Some? && !Readable(old(vdb.View()), KeysBy(h), l, k))
    ensures Grown(h, l, old(vdb.mem.Keys), vdb.mem.Keys)
    ensures sound ==> r != DatabaseError
  {
    var fault := Fault(sound);
    if fault {
      return DatabaseError;
    }
    assert dbs.value + k == KeysBy(h)(ValueAt(l, k));
    var was := ReadElement(vdb, dbs, k, h, l);
    if was.None? {
      vdb.Put(dbs.value + k, ElementCell(AtomicState.TOMBSTONE));
      return Ok;
    }
    if !was.value.present {
      return Duplicated;
    }
    var ok := DeleteTraitsInto(vdb, h, dbs.index, was.value.traits, k, l, sound);
    if !ok {
      return DatabaseError;
    }
    vdb.Delete(dbs.value + k);
    return Ok;
  }

  method RemoveEach(vdb: Overlay, h: Hash, dbs: Dbs, removes: seq<Key>, ghost l: Lane, sound: bool) returns (r: Status)
    requires dbs == DbsOf(h, l)
    modifies vdb`mem
    ensures r == Ok ==> RunLane(old(vdb.View()), KeysBy(h), l, RemoveOps(removes)) == Some(vdb.View())
    ensures r == Duplicated ==> RunLane(old(vdb.View()), KeysBy(h), l, RemoveOps(removes)) == None
    ensures sound ==> r != DatabaseError
  {
    ghost var ops := RemoveOps(removes);
    ghost var b := vdb.View();
    for i := 0 to |removes|
      invariant RunLane(b, KeysBy(h), l, ops[..i]) == Some(vdb.View())
    {
      RunLaneOn(b, KeysBy(h), l, ops, i);
      r := RemoveInto(vdb, h, dbs, removes[i], l, sound);
      if r != Ok {
        if r == Duplicated { RunLaneStuck(b, KeysBy(h), l, ops, i + 1); }
        return;
      }
    }
    assert ops[..|removes|] == ops;
    return Ok;
  }

  method SetEach(vdb: Overlay, h: Hash, dbs: Dbs, puts: seq<AtomicState.Element>, ghost l: Lane, sound: bool) returns (r: Status)
    requires dbs == DbsOf(h, l)
    modifies vdb`mem
    ensures r == Ok ==> RunLane(old(vdb.View()), KeysBy(h), l, PutOps(puts)) == Some(vdb.View())
    ensures r == Duplicated ==> RunLane(old(vdb.View()), KeysBy(h), l, PutOps(puts)) == None
    ensures sound ==> r != DatabaseError
  {
    ghost var ops := PutOps(puts);
    ghost var b := vdb.View();
    for i := 0 to |puts|
      invariant RunLane(b, KeysBy(h), l, ops[..i]) == Some(vdb.View())
    {
      RunLaneOn(b, KeysBy(h), l, ops, i);
      r := SetInto(vdb, h, dbs, puts[i], l, sound);
      if r != Ok {
        if r == Duplicated { RunLaneStuck(b, KeysBy(h), l, ops, i + 1); }
        return;
      }
    }
    assert ops[..|puts|] == ops;
    return Ok;
  }

  lemma RunLaneOn(b: Db, at: Layout, l: Lane, ops: seq<Op>, i: nat)
    requires i < |ops| && RunLane(b, at, l, ops[..i]).Some?
    ensures RunLane(b, at, l, ops[..i + 1]) == StepLane(RunLane(b, at, l, ops[..i]).value, at, l, ops[i])
  {
    assert ops[..i + 1][..i] == ops[..i];
  }

  lemma {:induction false} RunLaneStuck(b: Db, at: Layout, l: Lane, ops: seq<Op>, n: nat)
    requires n <= |ops| && RunLane(b, at, l, ops[..n]) == None
    ensures RunLane(b, at, l, ops) == None
  {
    if n == |ops| {
      assert ops[..n] == ops;
    } else {
      assert ops[..|ops| - 1][..n] == ops[..n];
      RunLaneStuck(b, at, l, ops[..|ops| - 1], n);
    }
  }

  // ---- the order of the locks ---------------------------------------------------------------

  /** Chain IDs of 32 bytes, and no collision on the pairs hashed. */
  ghost predicate Separated(hash: Hash, me: Bytes, peers: set<Bytes>, used: set<Bytes>) {
    NoCollision(hash, used) && IsId(me) && forall p :: p in peers ==> IsId(p) && PairBytes(me, p) in used
  }

  /** sharedIDs and sharedOperations: which peer each ID stands for, for the peers in `seen`. */
  ghost predicate Planned(hash: Hash, me: Bytes, seen: set<Bytes>, ids: seq<Bytes>, peerOf: map<Bytes, Bytes>) {
    && (forall id :: id in ids ==> id in peerOf && peerOf[id] in seen && SharedId(hash, me, peerOf[id]) == id)
    && (forall p :: p in seen ==> SharedId(hash, me, p) in ids && peerOf[SharedId(hash, me, p)] == p)
  }

  predicate DistinctIds(ids: seq<Bytes>) {
    forall i, j :: 0 <= i < j < |ids| ==> ids[i] != ids[j]
  }

  lemma FreshId(hash: Hash, me: Bytes, peers: set<Bytes>, seen: set<Bytes>, ids: seq<Bytes>, peerOf: map<Bytes, Bytes>,
                p: Bytes, used: set<Bytes>)
    requires Separated(hash, me, peers, used) && seen <= peers && p in peers && p !in seen
    requires Planned(hash, me, seen, ids, peerOf)
    ensures SharedId(hash, me, p) !in ids
  {
    var id := SharedId(hash, me, p);
    if id in ids {
      assert peerOf[id] in seen;
      SharedIdsDistinct(hash, me, peerOf[id], p, used);
    }
  }

  lemma SortPlanned(hash: Hash, me: Bytes, seen: set<Bytes>, ids: seq<Bytes>, peerOf: map<Bytes, Bytes>)
    requires Planned(hash, me, seen, ids, peerOf)
    ensures Planned(hash, me, seen, Sort(ids), peerOf)
  {
    forall id
      ensures id in Sort(ids) <==> id in ids
    {
      SortMembers(ids, id);
    }
  }

  method NumberOne(hash: Hash, me: Bytes, peers: set<Bytes>, ghost seen: set<Bytes>, ids0: seq<Bytes>, peerOf0: map<Bytes, Bytes>,
                   p: Bytes, ghost used: set<Bytes>)
    returns (ids: seq<Bytes>, peerOf: map<Bytes, Bytes>)
    requires Separated(hash, me, peers, used) && seen <= peers && p in peers && p !in seen
    requires Planned(hash, me, seen, ids0, peerOf0) && DistinctIds(ids0)
    ensures Planned(hash, me, seen + {p}, ids, peerOf) && DistinctIds(ids)
  {
    FreshId(hash, me, peers, seen, ids0, peerOf0, p, used);
    var id := SharedId(hash, me, p);
    ids, peerOf := ids0 + [id], peerOf0[id := p];
  }

  method Number(hash: Hash, me: Bytes, peers: set<Bytes>, ghost used: set<Bytes>)
    returns (ids: seq<Bytes>, peerOf: map<Bytes, Bytes>)
    requires Separated(hash, me, peers, used)
    ensures DistinctIds(ids) && Planned(hash, me, peers, ids, peerOf)
  {
    ids, peerOf := [], map[];
    var left := peers;
    ghost var seen: set<Bytes> := {};
    while left != {}
      invariant seen == peers - left && left <= peers
      invariant Planned(hash, me, seen, ids, peerOf) && DistinctIds(ids)
      decreases |left|
    {
      var p :| p in left;
      ids, peerOf := NumberOne(hash, me, peers, seen, ids, peerOf, p, used);
      left, seen := left - {p}, seen + {p};
    }
  }

  /** The locks to take, in order, and the peer behind each. */
  method Plan(hash: Hash, me: Bytes, reqs: map<Bytes, Requests>, ghost used: set<Bytes>)
    returns (ids: seq<Bytes>, peerOf: map<Bytes, Bytes>)
    requires Separated(hash, me, reqs.Keys, used)
    ensures StrictlySorted(ids) && Planned(hash, me, reqs.Keys, ids, peerOf)
  {
    ids, peerOf := Number(hash, me, reqs.Keys, used);
    SortStrict(ids);
    SortPlanned(hash, me, reqs.Keys, ids, peerOf);
    ids := Sort(ids);
  }

  function InOrder(ids: seq<Bytes>, peerOf: map<Bytes, Bytes>): (peers: seq<Bytes>)
    requires forall id :: id in ids ==> id in peerOf
    ensures |peers| == |ids| && forall i :: 0 <= i < |ids| ==> peers[i] == peerOf[ids[i]]
  {
    seq(|ids|, i requires 0 <= i < |ids| => peerOf[ids[i]])
  }

  /** The order that keeps SharedLocks free of deadlock. */
  predicate Ascending(hash: Hash, me: Bytes, peers: seq<Bytes>) {
    forall i, j :: 0 <= i < j < |peers| ==> Less(SharedId(hash, me, peers[i]), SharedId(hash, me, peers[j]))
  }

  lemma PlannedPeers(hash: Hash, me: Bytes, reqs: map<Bytes, Requests>, ids: seq<Bytes>, peerOf: map<Bytes, Bytes>)
    requires StrictlySorted(ids) && Planned(hash, me, reqs.Keys, ids, peerOf)
    ensures Peers(InOrder(ids, peerOf), reqs) && Ascending(hash, me, InOrder(ids, peerOf))
    ensures forall p :: p in InOrder(ids, peerOf) <==> p in reqs
  {
    var peers := InOrder(ids, peerOf);
    forall i, j | 0 <= i < j < |peers|
      ensures peers[i] != peers[j] && Less(SharedId(hash, me, peers[i]), SharedId(hash, me, peers[j]))
    {
      assert ids[i] in ids && ids[j] in ids && Less(ids[i], ids[j]);
      Irreflexive(ids[i]);
    }
    forall p | p in reqs
      ensures p in peers
    {
      var i :| 0 <= i < |ids| && ids[i] == SharedId(hash, me, p);
      assert peers[i] == p;
    }
  }

  lemma ApplyPeersOn(b: Db, at: Layout, me: Bytes, peers: seq<Bytes>, reqs: map<Bytes, Requests>, i: nat)
    requires Peers(peers, reqs) && i < |peers|
    ensures Peers(peers[..i], reqs) && Peers(peers[..i + 1], reqs)
    ensures ApplyPeers(b, at, me, peers[..i], reqs).Some? ==>
              ApplyPeers(b, at, me, peers[..i + 1], reqs) ==
                ApplyPeer(ApplyPeers(b, at, me, peers[..i], reqs).value, at, me, peers[i], reqs[peers[i]])
  {
    assert peers[..i + 1][..i] == peers[..i];
    PeersPrefix(peers, reqs, i + 1);
    PeersPrefix(peers, reqs, i);
  }

  lemma {:induction false} ApplyPeersStuck(b: Db, at: Layout, me: Bytes, peers: seq<Bytes>, reqs: map<Bytes, Requests>, n: nat)
    requires Peers(peers, reqs) && n <= |peers| && Peers(peers[..n], reqs)
    requires ApplyPeers(b, at, me, peers[..n], reqs) == None
    ensures ApplyPeers(b, at, me, peers, reqs) == None
  {
    if n == |peers| {
      assert peers[..n] == peers;
    } else {
      PeersBefore(peers, reqs);
      assert peers[..|peers| - 1][..n] == peers[..n];
      ApplyPeersStuck(b, at, me, peers[..|peers| - 1], reqs, n);
    }
  }

  // ---- the object ---------------------------------------------------------------------------

  predicate Readable(b: Db, at: Layout, l: Lane, k: Key) {
    ElementIn(b, at, l, k).Some? && ElementIn(b, at, l, k).value.present
  }

  /** How a read of shared memory ends: with values, with a missing element, or with a database error. */
  datatype Answer = Answered | NotFound | Failed

  ghost predicate ValuesOf(b: Db, at: Layout, l: Lane, keys: seq<Key>, values: seq<Bytes>) {
    |values| == |keys| &&
    forall i :: 0 <= i < |keys| ==> Readable(b, at, l, keys[i]) && ElementIn(b, at, l, keys[i]).value.value == values[i]
  }

  class ChainMemory {
    const hash: Hash
    const chain: Bytes
    const sound: bool // no access to the database fails
    var db: Db

    constructor (hash: Hash, chain: Bytes, db: Db, sound: bool)
      ensures this.hash == hash && this.chain == chain && this.db == db && this.sound == sound
    {
      this.hash, this.chain, this.db, this.sound := hash, chain, db, sound;
    }

    /** The peers' requests, one lock at a time in ascending order of shared ID, into the overlay. */
    method Gather(vdb: Overlay, reqs: map<Bytes, Requests>, ids: seq<Bytes>, peerOf: map<Bytes, Bytes>) returns (r: Status)
      requires StrictlySorted(ids) && Planned(hash, chain, reqs.Keys, ids, peerOf)
      modifies vdb`mem
      ensures Peers(InOrder(ids, peerOf), reqs)
      ensures r == Ok ==>
                ApplyPeers(old(vdb.View()), KeysBy(hash), chain, InOrder(ids, peerOf), reqs) == Some(vdb.View())
      ensures r == Duplicated ==> ApplyPeers(old(vdb.View()), KeysBy(hash), chain, InOrder(ids, peerOf), reqs) == None
      ensures sound ==> r != DatabaseError
    {
      PlannedPeers(hash, chain, reqs, ids, peerOf);
      ghost var b, peers, at := vdb.View(), InOrder(ids, peerOf), KeysBy(hash);
      for i := 0 to |ids|
        invariant Peers(peers[..i], reqs) && ApplyPeers(b, at, chain, peers[..i], reqs) == Some(vdb.View())
      {
        ApplyPeersOn(b, at, chain, peers, reqs, i);
        var peer := peerOf[ids[i]];
        r := RemoveEach(vdb, hash, Inbound(hash, chain, peer), reqs[peer].removes, InboundLane(chain, peer), sound);
        if r == Ok {
          r := SetEach(vdb, hash, Outbound(hash, chain, peer), reqs[peer].puts, OutboundLane(chain, peer), sound);
        }
        if r != Ok {
          if r == Duplicated { ApplyPeersStuck(b, at, chain, peers, reqs, i + 1); }
          return;
        }
      }
      assert peers[..|ids|] == peers;
      return Ok;
    }

    /** All or nothing; without a database error it succeeds exactly when the requests do, and is refused as
        a duplicate exactly when one of them puts a present element or removes one twice ahead of its put.
        `spaces` are the spaces that the lanes in scope store. */
    method Apply(reqs: map<Bytes, Requests>, batches: seq<Batch>, ghost used: set<Bytes>, ghost sc: Scope, ghost spaces: Lane -> Space)
      returns (r: Status, ghost peers: seq<Bytes>)
      requires Separated(hash, chain, reqs.Keys, used)
      modifies `db
      ensures Peers(peers, reqs) && Ascending(hash, chain, peers) && forall p :: p in peers <==> p in reqs
      ensures r == Ok ==>
                var after := ApplyPeers(old(db), KeysBy(hash), chain, peers, reqs);
                after.Some? && db == Replay(after.value, Joined(batches))
      ensures r != Ok ==> db == old(db)
      ensures r == Duplicated ==> ApplyPeers(old(db), KeysBy(hash), chain, peers, reqs) == None
      ensures sound ==> (r == Ok <==> ApplyPeers(old(db), KeysBy(hash), chain, peers, reqs).Some?)
      ensures sound && Scoped(hash, sc) && StoresAll(old(db), KeysBy(hash), sc, spaces) && PeersIn(sc, chain, peers, reqs) ==>
                (r == Duplicated <==> exists p :: p in reqs && PeerRefused(old(db), KeysBy(hash), chain, p, reqs[p]))
    {
      var ids, peerOf := Plan(hash, chain, reqs, used);
      PlannedPeers(hash, chain, reqs, ids, peerOf);
      peers := InOrder(ids, peerOf);
      if Scoped(hash, sc) && StoresAll(db, KeysBy(hash), sc, spaces) && PeersIn(sc, chain, peers, reqs) {
        HashedLayout(hash, sc);
        ApplyRefused(db, KeysBy(hash), sc, spaces, chain, peers, reqs);
      }
      var vdb := new VersionDb.Database(db);
      r := Gather(vdb, reqs, ids, peerOf);
      if r != Ok {
        return;
      }
      var batch := vdb.CommitBatch();
      var all := MergeBatches(batch, batches);
      var fault := Fault(sound);
      if fault {
        return DatabaseError, peers;
      }
      ReplayJoins(db, batch, Joined(batches));
      db := Replay(db, all);
    }

    /** Get: the values of inbound elements, or nothing if one of them is missing or cannot be read. */
    method Get(peer: Bytes, keys: seq<Key>) returns (r: Answer, values: seq<Bytes>)
      ensures var at, l := KeysBy(hash), InboundLane(chain, peer);
              && (r == Answered ==> ValuesOf(db, at, l, keys, values))
              && (r == NotFound ==> exists i :: 0 <= i < |keys| && !Readable(db, at, l, keys[i]))
              && (sound ==> (r == Answered <==> forall i :: 0 <= i < |keys| ==> Readable(db, at, l, keys[i])))
    {
      r, values := ReadValues(Inbound(hash, chain, peer), keys, InboundLane(chain, peer));
    }

    method ReadValues(dbs: Dbs, keys: seq<Key>, ghost l: Lane) returns (r: Answer, values: seq<Bytes>)
      requires dbs == DbsOf(hash, l)
      ensures r == Answered ==> ValuesOf(db, KeysBy(hash), l, keys, values)
      ensures r == NotFound ==> exists i :: 0 <= i < |keys| && !Readable(db, KeysBy(hash), l, keys[i])
      ensures sound ==> r != Failed
    {
      values := [];
      ghost var at := KeysBy(hash);
      for i := 0 to |keys|
        invariant ValuesOf(db, at, l, keys[..i], values)
      {
        var fault := Fault(sound);
        if fault {
          return Failed, [];
        }
        assert dbs.value + keys[i] == at(ValueAt(l, keys[i]));
        var e := ElementOf(Lookup(db, dbs.value + keys[i]));
        if e.None? || !e.value.present {
          return NotFound, [];
        }
        values := values + [e.value.value];
      }
      assert keys[..|keys|] == keys;
      return Answered, values;
    }

    /** The key after a listed one, from its node. */
    method ReadNext(prefix: Bytes, key: Key, ghost l: Lane, ghost t: Trait, ghost d: ListData, ghost keys: AtomicState.Keys, ghost i: nat)
      returns (next: Option<Key>)
      requires prefix == TraitPrefix(hash, l, t) && Reads(db, KeysBy(hash), l, t, d) && LinkedList.Holds(d, keys)
      requires i < |keys| && keys[i].0 == key
      ensures next == if i + 1 < |keys| then Some(keys[i + 1].0) else None
    {
      assert prefix + LinkedList.NodeKey(key) == KeysBy(hash)(Address.NodeAt(l, t, key));
      NextInList(db, KeysBy(hash), l, t, d, keys, i);
      next := NodeOf(Lookup(db, prefix + LinkedList.NodeKey(key))).value.next;
    }

    /** What iterating over the list of a trait yields. */
    method ReadList(prefix: Bytes, ghost l: Lane, ghost t: Trait, ghost keys: AtomicState.Keys) returns (ks: seq<Key>)
      requires prefix == TraitPrefix(hash, l, t) && HoldsList(db, KeysBy(hash), l, t, keys)
      ensures ks == Pagination.Firsts(keys)
    {
      ghost var d :| Reads(db, KeysBy(hash), l, t, d) && LinkedList.Holds(d, keys);
      assert prefix + LinkedList.HEAD_KEY == KeysBy(hash)(HeadAt(l, t));
      var cur := HeadOf(Lookup(db, prefix + LinkedList.HEAD_KEY));
      ks := [];
      while cur.Some?
        invariant |ks| <= |keys| && ks == Pagination.Firsts(keys)[..|ks|]
        invariant cur == if |ks| < |keys| then Some(keys[|ks|].0) else None
        decreases |keys| - |ks|
      {
        var key := cur.value;
        cur := ReadNext(prefix, key, l, t, d, keys, |ks|);
        ks := ks + [key];
      }
    }

    method ReadLists(index: Bytes, traits: seq<Trait>, ghost l: Lane, ghost sc: Scope, ghost s: Space) returns (lists: Pagination.Lists)
      requires index == LanePrefix(hash, Index, l) && NamesIn(sc, l, traits) && HoldsIndex(db, KeysBy(hash), sc, l, s.index)
      ensures forall t :: t in traits ==> Pagination.KeysOf(lists, t) == Pagination.KeysOf(Pagination.KeyLists(s.index), t)
      ensures forall t :: t !in traits ==> Pagination.KeysOf(lists, t) == []
    {
      lists := map[];
      for i := 0 to |traits|
        invariant forall t :: t in traits[..i] ==> Pagination.KeysOf(lists, t) == Pagination.KeysOf(Pagination.KeyLists(s.index), t)
        invariant forall t :: t !in traits[..i] ==> t !in lists
      {
        ghost var keys := AtomicState.KeysOf(s.index, traits[i]);
        assert (l, traits[i]) in sc.names;
        var ks := ReadList(NewOn(hash, index, traits[i]), l, traits[i], keys);
        lists := lists[traits[i] := ks];
        assert traits[..i + 1] == traits[..i] + [traits[i]];
      }
      assert traits[..|traits|] == traits;
    }

    /** Indexed: the values under a page of keys. When the inbound lane stores an agreeing space, it never
        meets a listed key without an element. */
    method Indexed(peer: Bytes, traits: seq<Trait>, startTrait: Trait, startKey: Key, limit: int, ghost sc: Scope, ghost s: Space)
      returns (r: Answer, values: seq<Bytes>, lastTrait: Trait, lastKey: Key, ghost failed: set<nat>)
      requires var l := InboundLane(chain, peer);
               Stores(db, KeysBy(hash), sc, l, s) && AtomicState.Agree(s) && NamesIn(sc, l, traits)
      requires Pagination.NoCollision(hash, s.values.Keys)
      ensures r != NotFound && (sound ==> r == Answered && failed == {})
      ensures r == Answered ==>
                var page := Pagination.Collect(Pagination.KeyLists(s.index), Sort(traits), startTrait, startKey, failed, limit);
                && ValuesOf(db, KeysBy(hash), InboundLane(chain, peer), page.keys, values)
                && lastTrait == page.lastTrait && lastKey == page.lastKey
    {
      ghost var l := InboundLane(chain, peer);
      var dbs := Inbound(hash, chain, peer);
      var lists := ReadLists(dbs.index, traits, l, sc, s);
      ListsListed(lists, traits, s);
      var ok, page;
      ok, page, failed := Pagination.CollectKeys(lists, traits, startTrait, startKey, limit, hash, s.values.Keys, sound);
      if !ok {
        return Failed, [], [], [], failed;
      }
      SamePage(lists, traits, s, startTrait, startKey, failed, limit);
      PageReadable(db, KeysBy(hash), sc, l, s, traits, startTrait, startKey, failed, limit);
      r, values := ReadValues(dbs, page.keys, l);
      lastTrait, lastKey := page.lastTrait, page.lastKey;
    }
  }

  /** The node of a listed key points to the next one. */
  lemma NextInList(b: Db, at: Layout, l: Lane, t: Trait, d: ListData, keys: AtomicState.Keys, i: nat)
    requires Reads(b, at, l, t, d) && LinkedList.Holds(d, keys) && i < |keys|
    ensures var node := NodeIn(b, at, l, t, keys[i].0);
            node.Some? && node.value.next == if i + 1 < |keys| then Some(keys[i + 1].0) else None
  {
    assert LinkedList.NodeOk(d, keys, i);
  }

  lemma ListsListed(lists: Pagination.Lists, traits: seq<Trait>, s: Space)
    requires AtomicState.Agree(s)
    requires forall t :: t in traits ==> Pagination.KeysOf(lists, t) == Pagination.KeysOf(Pagination.KeyLists(s.index), t)
    requires forall t :: t !in traits ==> Pagination.KeysOf(lists, t) == []
    ensures Pagination.AllListed(lists, s.values.Keys)
  {
    forall t, k | k in Pagination.KeysOf(lists, t)
      ensures k in s.values.Keys
    {
      Pagination.KeyListsMembers(s.index, t, k);
      assert AtomicState.Listed(s.index, t, k) <==> AtomicState.Carries(s.values, t, k);
    }
  }

  lemma SamePage(lists: Pagination.Lists, traits: seq<Trait>, s: Space, T: Trait, K: Key, failed: set<nat>, limit: int)
    requires forall t :: t in traits ==> Pagination.KeysOf(lists, t) == Pagination.KeysOf(Pagination.KeyLists(s.index), t)
    ensures Pagination.Collect(lists, Sort(traits), T, K, failed, limit) ==
            Pagination.Collect(Pagination.KeyLists(s.index), Sort(traits), T, K, failed, limit)
  {
    var ts := Sort(traits);
    forall i | 0 <= i < |ts|
      ensures ts[i] in traits
    {
      SortMembers(traits, ts[i]);
    }
    Pagination.CollectSame(lists, Pagination.KeyLists(s.index), ts, T, K, failed, limit);
  }

  lemma PageReadable(b: Db, at: Layout, sc: Scope, l: Lane, s: Space, traits: seq<Trait>, T: Trait, K: Key, failed: set<nat>, limit: int)
    requires Stores(b, at, sc, l, s) && AtomicState.Agree(s)
    ensures var keys := Pagination.Collect(Pagination.KeyLists(s.index), Sort(traits), T, K, failed, limit).keys;
            forall i :: 0 <= i < |keys| ==> Readable(b, at, l, keys[i])
  {
    var keys := Pagination.Collect(Pagination.KeyLists(s.index), Sort(traits), T, K, failed, limit).keys;
    forall i | 0 <= i < |keys|
      ensures Readable(b, at, l, keys[i])
    {
      Pagination.PageCarries(s, traits, T, K, failed, limit, keys[i]);
      assert ElementIn(b, at, l, keys[i]) == AtomicState.Lookup(s, keys[i]);
    }
  }

  // ---- Indexed over any history -------------------------------------------------------------

  /** The lane has a present element under `k` with one of the traits. */
  predicate Carrier(b: Db, at: Layout, l: Lane, traits: seq<Trait>, k: Key) {
    Readable(b, at, l, k) && exists t :: t in traits && t in ElementIn(b, at, l, k).value.traits
  }

  /** After any history of Apply calls, a client that keeps calling Indexed until a page is short has
      exactly the keys of the elements that carry a requested trait, whichever lookups failed on the way,
      as long as no empty key hides the part of a list before it; none does when no present element has the
      empty key. `s` is the space that the lane stores. */
  lemma IndexedFindsAll(b: Db, h: Hash, sc: Scope, calls: seq<Call>, l: Lane, traits: seq<Trait>, limit: int, failures: seq<set<nat>>)
    returns (s: Space)
    requires Scoped(h, sc) && Unused(b, KeysBy(h), sc) && ValidCalls(KeysBy(h), sc, calls) && l in sc.lanes && limit > 0
    ensures Stores(RunCalls(b, KeysBy(h), sc, calls), KeysBy(h), sc, l, s) && AtomicState.Agree(s)
    ensures var d := Pagination.DrainBy(Pagination.KeyLists(s.index), traits, [], [], limit, failures);
            Pagination.NothingHidden(Pagination.KeyLists(s.index)) && d.complete ==>
              forall k :: k in d.found <==> Carrier(RunCalls(b, KeysBy(h), sc, calls), KeysBy(h), l, traits, k)
    ensures !Readable(RunCalls(b, KeysBy(h), sc, calls), KeysBy(h), l, []) ==>
              Pagination.NothingHidden(Pagination.KeyLists(s.index))
  {
    var spaces := ReachableByHash(b, h, sc, calls);
    s := spaces(l);
    StoredFindsAll(RunCalls(b, KeysBy(h), sc, calls), KeysBy(h), sc, l, s, traits, limit, failures);
  }

  lemma StoredFindsAll(b: Db, at: Layout, sc: Scope, l: Lane, s: Space, traits: seq<Trait>, limit: int, failures: seq<set<nat>>)
    requires Stores(b, at, sc, l, s) && AtomicState.Agree(s) && limit > 0
    ensures var d := Pagination.DrainBy(Pagination.KeyLists(s.index), traits, [], [], limit, failures);
            Pagination.NothingHidden(Pagination.KeyLists(s.index)) && d.complete ==>
              forall k :: k in d.found <==> Carrier(b, at, l, traits, k)
    ensures !Readable(b, at, l, []) ==> Pagination.NothingHidden(Pagination.KeyLists(s.index))
  {
    assert ElementIn(b, at, l, []) == AtomicState.Lookup(s, []);
    if !Readable(b, at, l, []) { Pagination.NoEmptyKeyHides(s); }
    var d := Pagination.DrainBy(Pagination.KeyLists(s.index), traits, [], [], limit, failures);
    if Pagination.NothingHidden(Pagination.KeyLists(s.index)) && d.complete {
      forall k
        ensures k in d.found <==> Carrier(b, at, l, traits, k)
      {
        Pagination.PagingFindsCarriers(s, traits, limit, failures, k);
        assert ElementIn(b, at, l, k) == AtomicState.Lookup(s, k);
        CarrierIs(b, at, l, s, traits, k);
      }
    }
  }

  lemma CarrierIs(b: Db, at: Layout, l: Lane, s: Space, traits: seq<Trait>, k: Key)
    requires ElementIn(b, at, l, k) == AtomicState.Lookup(s, k)
    ensures Carrier(b, at, l, traits, k) <==> exists t :: t in traits && AtomicState.Carries(s.values, t, k)
  {
  }
}
