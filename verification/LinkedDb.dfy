/** database/linkeddb/linkeddb.go as an object: the linked list with its head-key cache, its node
cache (an LRU of any size that also remembers absences) and its write batch.

Reads of the underlying database and the batch write may fail at any time. */
module LinkedDb {
  import opened Options
  import opened ByteStrings
  import opened LinkedList
  import Lru
  import opened Faults

  datatype Read<+T> = Found(value: T) | NotFound | Failed

  /** The database under the list. `list` is the sequence that it holds. */
  class Store<K(==,!new), V(!new)> {
    const sound: bool // no access fails
    var data: Data<K, V>
    ghost var list: List<K, V>

    ghost predicate Valid()
      reads this
    {
      Holds(data, list)
    }

    constructor (sound: bool)
      ensures Valid() && list == [] && this.sound == sound
    {
      this.sound := sound;
      data := Data(None, map[]);
      list := [];
    }

    method GetNode(k: K) returns (r: Read<Node<K, V>>)
      ensures r.Failed? || r == if k in data.nodes then Found(data.nodes[k]) else NotFound
      ensures sound ==> !r.Failed?
    {
      var fault := Fault(sound);
      if fault {
        return Failed;
      }
      r := if k in data.nodes then Found(data.nodes[k]) else NotFound;
    }

    method GetHead() returns (r: Read<K>)
      ensures r.Failed? || r == if data.head.Some? then Found(data.head.value) else NotFound
      ensures sound ==> !r.Failed?
    {
      var fault := Fault(sound);
      if fault {
        return Failed;
      }
      r := if data.head.Some? then Found(data.head.value) else NotFound;
    }

    /** Atomic: all of the batch, or none of it. */
    method WriteAll(ws: seq<Write<K, V>>) returns (ok: bool)
      modifies this`data
      ensures data == if ok then ApplyBatch(old(data), ws) else old(data)
      ensures sound ==> ok
    {
      var fault := Fault(sound);
      if fault {
        return false;
      }
      data := ApplyBatch(data, ws);
      return true;
    }
  }

  /** Every cached entry, present or absent, says what the store says. */
  ghost predicate CacheOk<K(!new), V(!new)>(d: Data<K, V>, cache: seq<(K, Option<Node<K, V>>)>) {
    forall e :: e in cache ==> e.1 == LookupNode(d, e.0)
  }

  class LinkedDB<K(==,!new), V(!new)> {
    var headKeyIsSynced: bool
    var headKeyExists: bool
    var headKey: Option<K>
    var headKeyIsUpdated: bool
    var updatedHeadKeyExists: bool
    var updatedHeadKey: Option<K>
    const nodeCache: Lru.LRU<K, Option<Node<K, V>>>
    var updatedNodes: map<K, Option<Node<K, V>>>
    const db: Store<K, V>
    var batch: seq<Write<K, V>>

    ghost predicate HeadOk()
      reads this, db
    {
      headKeyIsSynced ==> (headKeyExists ==> headKey.Some?) && db.data.head == if headKeyExists then headKey else None
    }

    ghost predicate Valid()
      reads this, db, nodeCache
    {
      db.Valid() && nodeCache.Valid() && HeadOk() && CacheOk(db.data, nodeCache.Contents())
    }

    constructor (db: Store<K, V>, cacheSize: int)
      requires db.Valid()
      ensures Valid() && this.db == db && fresh(nodeCache)
    {
      this.db := db;
      nodeCache := new Lru.LRU(cacheSize);
      updatedNodes, batch := map[], [];
      headKeyIsSynced, headKeyExists, headKeyIsUpdated, updatedHeadKeyExists := false, false, false, false;
      headKey, updatedHeadKey := None, None;
    }

    // ---- cached reads ----

    method GetHeadKey() returns (r: Read<K>)
      requires Valid()
      modifies this`headKeyIsSynced, this`headKeyExists, this`headKey
      ensures Valid()
      ensures r.Failed? || r == if db.data.head.Some? then Found(db.data.head.value) else NotFound
      ensures db.sound ==> !r.Failed?
    {
      if headKeyIsSynced {
        return if headKeyExists then Found(headKey.value) else NotFound;
      }
      r := db.GetHead();
      if r.Found? {
        headKeyIsSynced, headKeyExists, headKey := true, true, Some(r.value);
      } else if r.NotFound? {
        headKeyIsSynced, headKeyExists := true, false;
      }
    }

    method GetNode(k: K) returns (r: Read<Node<K, V>>)
      requires Valid()
      modifies nodeCache
      ensures Valid()
      ensures r.Failed? || r == if k in db.data.nodes then Found(db.data.nodes[k]) else NotFound
      ensures db.sound ==> !r.Failed?
    {
      ghost var before, size := nodeCache.Contents(), nodeCache.size;
      Lru.GetMembers(before, size, k);
      var cached := nodeCache.GetEntry(k);
      if cached.Some? {
        assert (k, cached.value) in before;
        return if cached.value.Some? then Found(cached.value.value) else NotFound;
      }
      ghost var mid, size' := nodeCache.Contents(), nodeCache.size;
      r := db.GetNode(k);
      if !r.Failed? {
        var entry := if r.Found? then Some(r.value) else None;
        Lru.PutMembers(mid, size', k, entry);
        nodeCache.PutEntry(k, entry);
      }
    }
  
    // ---- pending writes ----

    ghost function Pending(): Data<K, V>
      reads this, db
    {
      ApplyBatch(db.data, batch)
    }

    /** updatedNodes and updatedHeadKey are exactly what the batch will change. */
    ghost predicate PendingOk()
      reads this, db
    {
      && (forall k :: LookupNode(Pending(), k) == if k in updatedNodes then updatedNodes[k] else LookupNode(db.data, k))
      && (updatedHeadKeyExists ==> !headKeyIsUpdated || updatedHeadKey.Some?)
      && Pending().head ==
         if headKeyIsUpdated then (if updatedHeadKeyExists then updatedHeadKey else None) else db.data.head
    }

    method ResetBatch()
      modifies this`headKeyIsUpdated, this`updatedNodes, this`batch
      ensures PendingOk() && Pending() == db.data
    {
      headKeyIsUpdated := false;
      updatedNodes := map[];
      batch := [];
    }

    method Record(w: Write<K, V>)
      modifies this`batch
      ensures Pending() == ApplyWrite(old(Pending()), w)
    {
      batch := batch + [w];
      assert batch[..|batch| - 1] == old(batch);
    }

    method PutNode(k: K, n: Node<K, V>)
      requires PendingOk()
      modifies this`updatedNodes, this`batch
      ensures PendingOk() && Pending() == SetNode(old(Pending()), k, n)
    {
      updatedNodes := updatedNodes[k := Some(n)];
      Record(PutNodeW(k, n));
    }

    method DeleteNode(k: K)
      requires PendingOk()
      modifies this`updatedNodes, this`batch
      ensures PendingOk() && Pending() == old(Pending()).(nodes := old(Pending()).nodes - {k})
    {
      updatedNodes := updatedNodes[k := None];
      Record(DeleteNodeW(k));
    }

    method PutHeadKey(k: K)
      requires PendingOk()
      modifies this`headKeyIsUpdated, this`updatedHeadKeyExists, this`updatedHeadKey, this`batch
      ensures PendingOk() && Pending() == old(Pending()).(head := Some(k))
    {
      headKeyIsUpdated, updatedHeadKeyExists, updatedHeadKey := true, true, Some(k);
      Record(PutHeadW(k));
    }

    method DeleteHeadKey()
      requires PendingOk()
      modifies this`headKeyIsUpdated, this`updatedHeadKeyExists, this`batch
      ensures PendingOk() && Pending() == old(Pending()).(head := None)
    {
      headKeyIsUpdated, updatedHeadKeyExists := true, false;
      Record(DeleteHeadW);
    }

    /** The loop of writeBatch over updatedNodes, in whatever order the map yields them. */
    method RefreshCache(d: Data<K, V>)
      requires nodeCache.Valid() && db.data == d
      requires forall k :: k in updatedNodes ==> updatedNodes[k] == LookupNode(d, k)
      requires forall e :: e in nodeCache.Contents() ==> e.0 in updatedNodes || e.1 == LookupNode(d, e.0)
      modifies nodeCache
      ensures nodeCache.Valid() && CacheOk(d, nodeCache.Contents())
    {
      var todo := updatedNodes.Keys;
      while todo != {}
        invariant nodeCache.Valid() && todo <= updatedNodes.Keys
        invariant forall e :: e in nodeCache.Contents() ==> e.0 in todo || e.1 == LookupNode(d, e.0)
        decreases |todo|
      {
        var k :| k in todo;
        Lru.PutMembers(nodeCache.Contents(), nodeCache.size, k, updatedNodes[k]);
        nodeCache.PutEntry(k, updatedNodes[k]);
        todo := todo - {k};
      }
    }

    /** `after` is the list that the pending writes lay out. */
    method WriteBatch(ghost after: List<K, V>) returns (ok: bool)
      requires Valid() && PendingOk() && Holds(Pending(), after)
      modifies this, db, nodeCache
      ensures Valid() && db.data == (if ok then old(Pending()) else old(db.data))
      ensures db.list == if ok then after else old(db.list)
      ensures db.sound ==> ok
    {
      ok := db.WriteAll(batch);
      if !ok {
        return;
      }
      db.list := after;
      if headKeyIsUpdated {
        headKeyIsSynced, headKeyExists, headKey := true, updatedHeadKeyExists, updatedHeadKey;
      }
      RefreshCache(db.data);
    }
  
    // ---- operations ----

    /** Ok is the list after the operation; on an error the list is the one before. */
    method Put(k: K, v: V) returns (ok: bool)
      requires Valid()
      modifies this, db, nodeCache
      ensures Valid() && db.list == if ok then PutList(old(db.list), k, v) else old(db.list)
      ensures db.sound ==> ok
    {
      ResetBatch();
      PutRefines(db.data, db.list, k, v);
      var existing := GetNode(k);
      match existing
      case Failed => return false;
      case Found(n) =>
        PutNode(k, n.(value := v));
        ok := WriteBatch(PutList(db.list, k, v));
      case NotFound =>
        var prepared := PrepareHead(k, v);
        if !prepared {
          return false;
        }
        ok := WriteBatch(PutList(db.list, k, v));
    }

    /** The writes that make the absent key `k` the head. */
    method PrepareHead(k: K, v: V) returns (ok: bool)
      requires Valid() && PendingOk() && Pending() == db.data && k !in db.data.nodes
      modifies this, nodeCache
      ensures Valid() && PendingOk() && (ok ==> Pending() == PutData(db.data, k, v))
      ensures db.sound ==> ok
    {
      assert NodeOk(db.data, db.list, 0);
      var newHead := Node(v, None, None);
      var head := GetHeadKey();
      if head.Failed? {
        return false;
      }
      if head.Found? {
        var oldHead := GetNode(head.value);
        if !oldHead.Found? {
          return false;
        }
        PutNode(head.value, oldHead.value.(previous := Some(k)));
        newHead := newHead.(next := Some(head.value));
      }
      PutNode(k, newHead);
      PutHeadKey(k);
      return true;
    }

    /** Has goes to the database, not to the cache. */
    method Has(k: K) returns (r: Read<bool>)
      requires Valid()
      ensures r.Failed? || r == Found(HasKey(db.list, k))
      ensures db.sound ==> !r.Failed?
    {
      StoredKeys(db.data, db.list, k);
      var node := db.GetNode(k);
      r := if node.Failed? then Failed else Found(node.Found?);
    }

    method Get(k: K) returns (r: Read<V>)
      requires Valid()
      modifies nodeCache
      ensures Valid()
      ensures r.Found? ==> (k, r.value) in db.list
      ensures r.NotFound? ==> !HasKey(db.list, k)
      ensures db.sound ==> !r.Failed?
    {
      StoredKeys(db.data, db.list, k);
      var node := GetNode(k);
      match node
      case Found(n) => r := Found(n.value);
      case NotFound => r := NotFound;
      case Failed => r := Failed;
    }

    method Head() returns (r: Read<(K, V)>)
      requires Valid()
      modifies this, nodeCache
      ensures Valid()
      ensures r.Failed? || r == if db.list == [] then NotFound else Found(db.list[0])
      ensures db.sound ==> !r.Failed?
    {
      var key := GetHeadKey();
      assert NodeOk(db.data, db.list, 0);
      match key
      case Failed => return Failed;
      case NotFound => return NotFound;
      case Found(k) =>
        var node := GetNode(k);
        match node
        case Found(n) => r := Found((k, n.value));
        case _ => r := Failed;
    }

    method IsEmpty() returns (r: Read<bool>)
      requires Valid()
      modifies this`headKeyIsSynced, this`headKeyExists, this`headKey
      ensures Valid() && (r.Failed? || r == Found(db.list == []))
      ensures db.sound ==> !r.Failed?
    {
      var key := GetHeadKey();
      r := if key.Failed? then Failed else Found(key.NotFound?);
    }

    method Delete(k: K) returns (ok: bool)
      requires Valid()
      modifies this, db, nodeCache
      ensures Valid() && db.list == if ok then DeleteList(old(db.list), k) else old(db.list)
      ensures db.sound ==> ok
    {
      DeleteRefines(db.data, db.list, k);
      var current := GetNode(k);
      if current.Failed? {
        return false;
      }
      if current.NotFound? {
        StoredKeys(db.data, db.list, k);
        if db.list != [] { UpdateAbsent(db.list, k, db.list[0].1); }
        return true;
      }
      ResetBatch();
      DeleteNode(k);
      var relinked := Relink(k, current.value);
      if !relinked {
        return false;
      }
      ok := WriteBatch(DeleteList(db.list, k));
    }

    /** The writes that join the neighbours of the deleted node. */
    method Relink(k: K, current: Node<K, V>) returns (ok: bool)
      requires Valid() && PendingOk() && LookupNode(db.data, k) == Some(current)
      requires Pending() == db.data.(nodes := db.data.nodes - {k})
      modifies this, nodeCache
      ensures Valid() && PendingOk() && (ok ==> Pending() == DeleteData(db.data, k))
      ensures db.sound ==> ok
    {
      NeighboursStored(db.data, db.list, k);
      ok := true;
      if current.previous.Some? {
        ok := WriteNext(current.previous.value, current.next);
      } else if current.next.None? {
        DeleteHeadKey();
      } else {
        PutHeadKey(current.next.value);
      }
      if ok && current.next.Some? {
        ok := WritePrevious(current.next.value, current.previous);
      }
    }

    /** A stored node that is not yet in the batch gets another next. */
    method WriteNext(k: K, next: Option<K>) returns (ok: bool)
      requires Valid() && PendingOk() && k in db.data.nodes && LookupNode(Pending(), k) == LookupNode(db.data, k)
      modifies this`updatedNodes, this`batch, nodeCache
      ensures Valid() && PendingOk() && (ok ==> Pending() == SetNext(old(Pending()), k, next))
      ensures db.sound ==> ok
    {
      var node := GetNode(k);
      if !node.Found? {
        return false;
      }
      PutNode(k, node.value.(next := next));
      return true;
    }

    /** Or another previous. */
    method WritePrevious(k: K, previous: Option<K>) returns (ok: bool)
      requires Valid() && PendingOk() && k in db.data.nodes && LookupNode(Pending(), k) == LookupNode(db.data, k)
      modifies this`updatedNodes, this`batch, nodeCache
      ensures Valid() && PendingOk() && (ok ==> Pending() == SetPrevious(old(Pending()), k, previous))
      ensures db.sound ==> ok
    {
      var node := GetNode(k);
      if !node.Found? {
        return false;
      }
      PutNode(k, node.value.(previous := previous));
      return true;
    }
  }

  /** The neighbours of a stored node are stored, and are neither it nor each other. */
  lemma NeighboursStored<K(!new), V>(d: Data<K, V>, l: List<K, V>, k: K)
    requires Holds(d, l) && k in d.nodes
    ensures var n := d.nodes[k];
            && (n.next.Some? ==> n.next.value in d.nodes && n.next.value != k)
            && (n.previous.Some? ==> n.previous.value in d.nodes && n.previous.value != k)
            && (n.next.Some? && n.previous.Some? ==> n.next != n.previous)
  {
    var i :| 0 <= i < |l| && l[i].0 == k;
    assert NodeOk(d, l, i) && NodeOk(d, l, i - 1) && NodeOk(d, l, i + 1);
  }

  lemma StoredAt<K(!new), V>(d: Data<K, V>, l: List<K, V>, i: nat)
    requires Holds(d, l) && i < |l|
    ensures l[i].0 in d.nodes && d.nodes[l[i].0].value == l[i].1
    ensures d.nodes[l[i].0].next == if i + 1 < |l| then Some(l[i + 1].0) else None
  {
    assert NodeOk(d, l, i);
  }

  // ---- iteration ----------------------------------------------------------------------------

  /** A cursor; `pos` is the place in the list of the node that Next will read. */
  class Iterator<K(==,!new), V(!new)> {
    const ldb: LinkedDB<K, V>
    var initialized: bool
    var exhausted: bool
    var nextKey: Option<K>
    var current: Option<(K, V)>
    var failed: bool
    ghost var pos: nat
    ghost var looked: bool

    ghost predicate Valid()
      reads this, ldb, ldb.db, ldb.nodeCache
    {
      && ldb.Valid()
      && (if exhausted then pos == |ldb.db.list| || failed
          else if !initialized then pos == 0
          else pos < |ldb.db.list| && nextKey == Some(ldb.db.list[pos].0))
    }

    /** What is still to come. */
    ghost function Remaining(): List<K, V>
      requires Valid()
      reads this, ldb, ldb.db, ldb.nodeCache
    {
      if pos <= |ldb.db.list| then ldb.db.list[pos..] else []
    }

    constructor (ldb: LinkedDB<K, V>)
      requires ldb.Valid()
      ensures Valid() && this.ldb == ldb && !failed && Remaining() == ldb.db.list
    {
      this.ldb := ldb;
      initialized, exhausted, failed, nextKey, current, pos, looked := false, false, false, None, None, 0, true;
    }

    /** Starts at `start` when the lookup succeeds and finds it, and at the head otherwise. A failed
        lookup is not reported; `looked` tells whether it succeeded. */
    constructor WithStart(ldb: LinkedDB<K, V>, start: K)
      requires ldb.Valid()
      ensures Valid() && this.ldb == ldb && !failed
      ensures looked && HasKey(ldb.db.list, start) ==> Remaining() != [] && Remaining()[0].0 == start && Remaining() == ldb.db.list[pos..]
      ensures !looked || !HasKey(ldb.db.list, start) ==> Remaining() == ldb.db.list
      ensures ldb.db.sound ==> looked
    {
      this.ldb := ldb;
      var has := ldb.Has(start);
      exhausted, failed, current, looked := false, false, None, !has.Failed?;
      if has == Found(true) {
        initialized, nextKey := true, Some(start);
        ghost var i :| 0 <= i < |ldb.db.list| && ldb.db.list[i].0 == start;
        pos := i;
      } else {
        initialized, nextKey, pos := false, None, 0;
      }
    }

    /** Find the head; false when the list is empty or the read failed. */
    method Initialize() returns (ok: bool)
      requires Valid() && !failed && !initialized && !exhausted
      modifies this, ldb
      ensures Valid() && pos == old(pos)
      ensures if ok then initialized && !exhausted && !failed
              else exhausted && current == None && (failed || ldb.db.list == [])
      ensures ldb.db.sound ==> !failed
    {
      initialized := true;
      var head := ldb.GetHeadKey();
      if head.Found? {
        nextKey := Some(head.value);
        return true;
      }
      exhausted, current, failed := true, None, head.Failed?;
      return false;
    }

    /** Read the node under nextKey and move past it. */
    method Advance() returns (ok: bool)
      requires Valid() && !failed && initialized && !exhausted
      modifies this, ldb.nodeCache
      ensures Valid() && ok == !failed
      ensures if ok then pos == old(pos) + 1 && current == Some(ldb.db.list[old(pos)])
              else exhausted && current == None
      ensures ldb.db.sound ==> ok
    {
      var key := nextKey.value;
      var node := ldb.GetNode(key);
      StoredAt(ldb.db.data, ldb.db.list, pos);
      if node.Found? {
        current := Some((key, node.value.value));
        nextKey := node.value.next;
        exhausted := node.value.next.None?;
        pos := pos + 1;
        return true;
      }
      exhausted, current, failed := true, None, node.Failed?;
      return false;
    }

    /** Yields the next pair of the list, until the list ends or a read fails. */
    method Next() returns (more: bool)
      requires Valid() && !failed
      modifies this, ldb, ldb.nodeCache
      ensures Valid() && (failed ==> !more)
      ensures !failed ==> more == (old(Remaining()) != [])
      ensures more ==> current == Some(old(Remaining())[0]) && Remaining() == old(Remaining())[1..] && pos == old(pos) + 1
      ensures !more ==> current == None && exhausted
      ensures ldb.db.sound ==> !failed
    {
      if exhausted {
        current := None;
        return false;
      }
      if !initialized {
        var started := Initialize();
        if !started {
          return false;
        }
      }
      more := Advance();
    }
  }
}
