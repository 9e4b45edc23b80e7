/** How the elements and trait lists of shared memory lie in the node's database, and what the
operations of chains/atomic/state.go read and write there through prefixdb and linkeddb. */
module SharedSpaces {
  import opened Options
  import opened ByteStrings
  import opened Namespaces
  import opened VersionDb
  import LinkedList
  import AtomicState

  /*
  The database is keyed by bytes. `at` gives the key of an address; Namespaces shows that the hashed
  prefixes of the source keep the addresses in scope apart, and that is all that is used of `at` here.

  The reference is AtomicState: a space of elements by key and keys by trait. A lane of the database
  stores a space when reading its element keys gives the elements and reading the keys of each
  trait's list gives a linked list. SetValue and RemoveValue on the database are shown to follow those
  of the space and to change no database key but those of their own lane.
  */

  type Key = AtomicState.Key
  type Trait = AtomicState.Trait
  type ListData = LinkedList.Data<Key, ()>
  type ListNode = LinkedList.Node<Key, ()>
  type ListWrite = LinkedList.Write<Key, ()>

  /** What is stored under a key, decoded. */
  datatype Cell =
    | ElementCell(element: AtomicState.DbElement)
    | HeadCell(head: Key)
    | NodeCell(node: ListNode)
    | Raw(bytes: Bytes)

  type Db = map<Bytes, Cell>
  type Batch = seq<Write<Bytes, Cell>>

  // ---- reading ------------------------------------------------------------------------------

  function ElementOf(c: Option<Cell>): Option<AtomicState.DbElement> {
    if c.Some? && c.value.ElementCell? then Some(c.value.element) else None
  }

  function NodeOf(c: Option<Cell>): Option<ListNode> {
    if c.Some? && c.value.NodeCell? then Some(c.value.node) else None
  }

  function HeadOf(c: Option<Cell>): Option<Key> {
    if c.Some? && c.value.HeadCell? then Some(c.value.head) else None
  }

  function ElementIn(b: Db, at: Layout, l: Lane, k: Key): Option<AtomicState.DbElement> {
    ElementOf(Lookup(b, at(ValueAt(l, k))))
  }

  function NodeIn(b: Db, at: Layout, l: Lane, t: Trait, k: Key): Option<ListNode> {
    NodeOf(Lookup(b, at(Address.NodeAt(l, t, k))))
  }

  function HeadIn(b: Db, at: Layout, l: Lane, t: Trait): Option<Key> {
    HeadOf(Lookup(b, at(HeadAt(l, t))))
  }

  function NodeUnder(b: Db, at: Layout, l: Lane, t: Trait, k: Option<Key>): Option<ListNode> {
    if k.Some? then NodeIn(b, at, l, t, k.value) else None
  }

  // ---- writing a list -----------------------------------------------------------------------

  function Stored(at: Layout, l: Lane, t: Trait, w: ListWrite): Write<Bytes, Cell> {
    match w
    case PutNodeW(k, n) => Write(at(Address.NodeAt(l, t, k)), Some(NodeCell(n)))
    case DeleteNodeW(k) => Write(at(Address.NodeAt(l, t, k)), None)
    case PutHeadW(k) => Write(at(HeadAt(l, t)), Some(HeadCell(k)))
    case DeleteHeadW => Write(at(HeadAt(l, t)), None)
  }

  function StoredAll(at: Layout, l: Lane, t: Trait, ws: seq<ListWrite>): Batch {
    seq(|ws|, i requires 0 <= i < |ws| => Stored(at, l, t, ws[i]))
  }

  /** The batches of linkeddb Put and Delete on the list of a trait. */
  function PutBatch(b: Db, at: Layout, l: Lane, t: Trait, k: Key): Batch {
    var head := HeadIn(b, at, l, t);
    StoredAll(at, l, t, LinkedList.PutWrites(NodeIn(b, at, l, t, k), head, NodeUnder(b, at, l, t, head), k, ()))
  }

  function DeleteBatch(b: Db, at: Layout, l: Lane, t: Trait, k: Key): Batch {
    var cur := NodeIn(b, at, l, t, k);
    var previous := if cur.Some? then NodeUnder(b, at, l, t, cur.value.previous) else None;
    var next := if cur.Some? then NodeUnder(b, at, l, t, cur.value.next) else None;
    StoredAll(at, l, t, LinkedList.DeleteWrites(cur, previous, next, k))
  }

  // ---- what may change ----------------------------------------------------------------------

  /** Parts of a lane: the list of one trait, all its lists, one element, everything. */
  datatype Area =
    | ListArea(lane: Lane, name: Trait)
    | IndexArea(lane: Lane)
    | ElementArea(lane: Lane, key: Key)
    | LaneArea(lane: Lane)

  predicate InArea(sc: Scope, r: Area, a: Address) {
    InScope(sc, a) && a.lane == r.lane &&
    match r
    case ListArea(_, t) => !a.ValueAt? && a.name == t
    case IndexArea(_) => !a.ValueAt?
    case ElementArea(_, k) => a.ValueAt? && a.key == k
    case LaneArea(_) => true
  }

  /** The database key belongs to an address of the area. */
  ghost predicate On(at: Layout, sc: Scope, r: Area, x: Bytes) {
    exists a :: InArea(sc, r, a) && at(a) == x
  }

  /** No database key differs but those of the area. */
  ghost predicate OnlyIn(at: Layout, sc: Scope, r: Area, b: Db, b': Db) {
    forall x :: Lookup(b, x) == Lookup(b', x) || On(at, sc, r, x)
  }

  /** Addresses outside the area have other keys, so they read as before. */
  lemma Untouched(at: Layout, sc: Scope, r: Area, b: Db, b': Db, a: Address)
    requires LaidOut(at, sc) && OnlyIn(at, sc, r, b, b') && InScope(sc, a) && !InArea(sc, r, a)
    ensures Lookup(b, at(a)) == Lookup(b', at(a))
  {
  }

  predicate Within(r: Area, r': Area) {
    r == r' || (r.lane == r'.lane && (r'.LaneArea? || (r.ListArea? && r'.IndexArea?)))
  }

  lemma Widen(at: Layout, sc: Scope, r: Area, r': Area, b: Db, b': Db)
    requires OnlyIn(at, sc, r, b, b') && Within(r, r')
    ensures OnlyIn(at, sc, r', b, b')
  {
    forall x | On(at, sc, r, x)
      ensures On(at, sc, r', x)
    {
      var a :| InArea(sc, r, a) && at(a) == x;
      assert InArea(sc, r', a);
    }
  }

  lemma OneWrite(b: Db, at: Layout, sc: Scope, r: Area, a: Address, v: Option<Cell>)
    requires InArea(sc, r, a)
    ensures OnlyIn(at, sc, r, b, ApplyWrite(b, Write(at(a), v)))
  {
    assert On(at, sc, r, at(a));
  }

  // ---- one list -----------------------------------------------------------------------------

  ghost predicate Reads(b: Db, at: Layout, l: Lane, t: Trait, d: ListData) {
    HeadIn(b, at, l, t) == d.head && forall k :: NodeIn(b, at, l, t, k) == LinkedList.LookupNode(d, k)
  }

  /** Reading the list's keys gives the linked list of `keys`. */
  ghost predicate HoldsList(b: Db, at: Layout, l: Lane, t: Trait, keys: AtomicState.Keys) {
    exists d :: Reads(b, at, l, t, d) && LinkedList.Holds(d, keys)
  }

  lemma StoredReads(b: Db, at: Layout, sc: Scope, l: Lane, t: Trait, d: ListData, w: ListWrite)
    requires LaidOut(at, sc) && l in sc.lanes && (l, t) in sc.names && Reads(b, at, l, t, d)
    ensures Reads(ApplyWrite(b, Stored(at, l, t, w)), at, l, t, LinkedList.ApplyWrite(d, w))
    ensures OnlyIn(at, sc, ListArea(l, t), b, ApplyWrite(b, Stored(at, l, t, w)))
  {
    var b', d' := ApplyWrite(b, Stored(at, l, t, w)), LinkedList.ApplyWrite(d, w);
    var a := if w.PutNodeW? || w.DeleteNodeW? then Address.NodeAt(l, t, w.key) else HeadAt(l, t);
    OneWrite(b, at, sc, ListArea(l, t), a, Stored(at, l, t, w).value);
    assert InScope(sc, a) && InScope(sc, HeadAt(l, t));
    forall k
      ensures NodeIn(b', at, l, t, k) == LinkedList.LookupNode(d', k)
    {
      assert InScope(sc, Address.NodeAt(l, t, k));
      assert NodeIn(b, at, l, t, k) == LinkedList.LookupNode(d, k);
    }
  }

  lemma {:induction false} BatchReads(b: Db, at: Layout, sc: Scope, l: Lane, t: Trait, d: ListData, ws: seq<ListWrite>)
    requires LaidOut(at, sc) && l in sc.lanes && (l, t) in sc.names && Reads(b, at, l, t, d)
    ensures Reads(Replay(b, StoredAll(at, l, t, ws)), at, l, t, LinkedList.ApplyBatch(d, ws))
    ensures OnlyIn(at, sc, ListArea(l, t), b, Replay(b, StoredAll(at, l, t, ws)))
  {
    if ws != [] {
      var n := |ws| - 1;
      BatchReads(b, at, sc, l, t, d, ws[..n]);
      assert StoredAll(at, l, t, ws)[..n] == StoredAll(at, l, t, ws[..n]);
      StoredReads(Replay(b, StoredAll(at, l, t, ws[..n])), at, sc, l, t, LinkedList.ApplyBatch(d, ws[..n]), ws[n]);
    }
  }

  /** Reading back after the batch of Put gives the list with the key put. */
  lemma PutStoresList(b: Db, at: Layout, sc: Scope, l: Lane, t: Trait, keys: AtomicState.Keys, k: Key)
    requires LaidOut(at, sc) && l in sc.lanes && (l, t) in sc.names && HoldsList(b, at, l, t, keys)
    ensures HoldsList(Replay(b, PutBatch(b, at, l, t, k)), at, l, t, LinkedList.PutList(keys, k, ()))
    ensures OnlyIn(at, sc, ListArea(l, t), b, Replay(b, PutBatch(b, at, l, t, k)))
  {
    var d :| Reads(b, at, l, t, d) && LinkedList.Holds(d, keys);
    var ws := LinkedList.PutWrites(LinkedList.LookupNode(d, k), d.head, LinkedList.NodeUnder(d, d.head), k, ());
    BatchReads(b, at, sc, l, t, d, ws);
    LinkedList.PutBatch(d, k, ());
    LinkedList.PutRefines(d, keys, k, ());
    assert PutBatch(b, at, l, t, k) == StoredAll(at, l, t, ws);
  }

  lemma DeleteStoresList(b: Db, at: Layout, sc: Scope, l: Lane, t: Trait, keys: AtomicState.Keys, k: Key)
    requires LaidOut(at, sc) && l in sc.lanes && (l, t) in sc.names && HoldsList(b, at, l, t, keys)
    ensures HoldsList(Replay(b, DeleteBatch(b, at, l, t, k)), at, l, t, LinkedList.DeleteList(keys, k))
    ensures OnlyIn(at, sc, ListArea(l, t), b, Replay(b, DeleteBatch(b, at, l, t, k)))
  {
    var d :| Reads(b, at, l, t, d) && LinkedList.Holds(d, keys);
    var cur := LinkedList.LookupNode(d, k);
    var previous := if cur.Some? then LinkedList.NodeUnder(d, cur.value.previous) else None;
    var next := if cur.Some? then LinkedList.NodeUnder(d, cur.value.next) else None;
    var ws := LinkedList.DeleteWrites(cur, previous, next, k);
    BatchReads(b, at, sc, l, t, d, ws);
    LinkedList.DeleteBatch(d, keys, k);
    LinkedList.DeleteRefines(d, keys, k);
    assert DeleteBatch(b, at, l, t, k) == StoredAll(at, l, t, ws);
  }

  /** A list is read from its own keys only. */
  lemma ListKept(b: Db, b': Db, at: Layout, sc: Scope, l: Lane, t: Trait, r: Area, keys: AtomicState.Keys)
    requires LaidOut(at, sc) && l in sc.lanes && (l, t) in sc.names && HoldsList(b, at, l, t, keys)
    requires OnlyIn(at, sc, r, b, b') && (r.lane != l || r.ElementArea? || (r.ListArea? && r.name != t))
    ensures HoldsList(b', at, l, t, keys)
  {
    var d :| Reads(b, at, l, t, d) && LinkedList.Holds(d, keys);
    Untouched(at, sc, r, b, b', HeadAt(l, t));
    forall k
      ensures NodeIn(b', at, l, t, k) == LinkedList.LookupNode(d, k)
    {
      assert NodeIn(b, at, l, t, k) == LinkedList.LookupNode(d, k);
      Untouched(at, sc, r, b, b', Address.NodeAt(l, t, k));
    }
    assert Reads(b', at, l, t, d);
  }

  // ---- one lane -----------------------------------------------------------------------------

  ghost predicate HoldsIndex(b: Db, at: Layout, sc: Scope, l: Lane, index: AtomicState.Index) {
    forall t :: (l, t) in sc.names ==> HoldsList(b, at, l, t, AtomicState.KeysOf(index, t))
  }

  ghost predicate HoldsElements(b: Db, at: Layout, l: Lane, s: AtomicState.Space) {
    forall k :: ElementIn(b, at, l, k) == AtomicState.Lookup(s, k)
  }

  /** All traits of the elements are in scope. */
  ghost predicate TraitsIn(sc: Scope, l: Lane, s: AtomicState.Space) {
    forall k, t :: k in s.values && t in s.values[k].traits ==> (l, t) in sc.names
  }

  /** The lane's part of the database is exactly the space `s`: its elements, and one linked list for
      each trait. */
  ghost predicate Stores(b: Db, at: Layout, sc: Scope, l: Lane, s: AtomicState.Space) {
    HoldsElements(b, at, l, s) && HoldsIndex(b, at, sc, l, s.index) && TraitsIn(sc, l, s)
  }

  /** Whatever changes in one lane, every other lane stores what it stored. */
  lemma OtherLaneKept(b: Db, b': Db, at: Layout, sc: Scope, l: Lane, other: Lane, s: AtomicState.Space)
    requires LaidOut(at, sc) && OnlyIn(at, sc, LaneArea(l), b, b')
    requires other != l && other in sc.lanes && Stores(b, at, sc, other, s)
    ensures Stores(b', at, sc, other, s)
  {
    forall k
      ensures ElementIn(b', at, other, k) == AtomicState.Lookup(s, k)
    {
      assert ElementIn(b, at, other, k) == AtomicState.Lookup(s, k);
      Untouched(at, sc, LaneArea(l), b, b', ValueAt(other, k));
    }
    forall t | (other, t) in sc.names
      ensures HoldsList(b', at, other, t, AtomicState.KeysOf(s.index, t))
    {
      ListKept(b, b', at, sc, other, t, LaneArea(l), AtomicState.KeysOf(s.index, t));
    }
  }

  // ---- the operations -----------------------------------------------------------------------

  function PutTraits(b: Db, at: Layout, l: Lane, traits: seq<Trait>, k: Key): Db {
    if traits == [] then b
    else
      var b1 := PutTraits(b, at, l, traits[..|traits| - 1], k);
      Replay(b1, PutBatch(b1, at, l, traits[|traits| - 1], k))
  }

  function DeleteTraits(b: Db, at: Layout, l: Lane, traits: seq<Trait>, k: Key): Db {
    if traits == [] then b
    else
      var b1 := DeleteTraits(b, at, l, traits[..|traits| - 1], k);
      Replay(b1, DeleteBatch(b1, at, l, traits[|traits| - 1], k))
  }

  /** None is errDuplicatedOperation. */
  function SetValue(b: Db, at: Layout, l: Lane, e: AtomicState.Element): Option<Db> {
    match ElementIn(b, at, l, e.key)
    case Some(was) => if was.present then None else Some(b - {at(ValueAt(l, e.key))})
    case None =>
      Some(PutTraits(b, at, l, e.traits, e.key)
           [at(ValueAt(l, e.key)) := ElementCell(AtomicState.DbElement(true, e.value, e.traits))])
  }

  function RemoveValue(b: Db, at: Layout, l: Lane, k: Key): Option<Db> {
    match ElementIn(b, at, l, k)
    case None => Some(b[at(ValueAt(l, k)) := ElementCell(AtomicState.TOMBSTONE)])
    case Some(was) =>
      if !was.present then None else Some(DeleteTraits(b, at, l, was.traits, k) - {at(ValueAt(l, k))})
  }

  // ---- they do to the database what AtomicState does to the space ---------------------------

  predicate NamesIn(sc: Scope, l: Lane, traits: seq<Trait>) {
    forall i :: 0 <= i < |traits| ==> (l, traits[i]) in sc.names
  }

  /** Changing one list changes that list and nothing else. */
  lemma IndexStep(b: Db, b': Db, at: Layout, sc: Scope, l: Lane, index: AtomicState.Index, t: Trait, keys: AtomicState.Keys)
    requires LaidOut(at, sc) && l in sc.lanes && HoldsIndex(b, at, sc, l, index)
    requires HoldsList(b', at, l, t, keys) && OnlyIn(at, sc, ListArea(l, t), b, b')
    ensures HoldsIndex(b', at, sc, l, index[t := keys])
  {
    forall u | (l, u) in sc.names
      ensures HoldsList(b', at, l, u, AtomicState.KeysOf(index[t := keys], u))
    {
      if u != t { ListKept(b, b', at, sc, l, u, ListArea(l, t), AtomicState.KeysOf(index, u)); }
    }
  }

  lemma {:induction false} PutTraitsStores(b: Db, at: Layout, sc: Scope, l: Lane, index: AtomicState.Index, traits: seq<Trait>, k: Key)
    requires LaidOut(at, sc) && l in sc.lanes && NamesIn(sc, l, traits) && HoldsIndex(b, at, sc, l, index)
    ensures HoldsIndex(PutTraits(b, at, l, traits, k), at, sc, l, AtomicState.PutTraits(index, traits, k))
    ensures OnlyIn(at, sc, IndexArea(l), b, PutTraits(b, at, l, traits, k))
  {
    if traits != [] {
      var n := |traits| - 1;
      PutTraitsStores(b, at, sc, l, index, traits[..n], k);
      var b1, index1, t := PutTraits(b, at, l, traits[..n], k), AtomicState.PutTraits(index, traits[..n], k), traits[n];
      var b2 := Replay(b1, PutBatch(b1, at, l, t, k));
      PutStoresList(b1, at, sc, l, t, AtomicState.KeysOf(index1, t), k);
      IndexStep(b1, b2, at, sc, l, index1, t, LinkedList.PutList(AtomicState.KeysOf(index1, t), k, ()));
      Widen(at, sc, ListArea(l, t), IndexArea(l), b1, b2);
    }
  }

  lemma {:induction false} DeleteTraitsStores(b: Db, at: Layout, sc: Scope, l: Lane, index: AtomicState.Index, traits: seq<Trait>, k: Key)
    requires LaidOut(at, sc) && l in sc.lanes && NamesIn(sc, l, traits) && HoldsIndex(b, at, sc, l, index)
    ensures HoldsIndex(DeleteTraits(b, at, l, traits, k), at, sc, l, AtomicState.DeleteTraits(index, traits, k))
    ensures OnlyIn(at, sc, IndexArea(l), b, DeleteTraits(b, at, l, traits, k))
  {
    if traits != [] {
      var n := |traits| - 1;
      DeleteTraitsStores(b, at, sc, l, index, traits[..n], k);
      var b1, index1, t := DeleteTraits(b, at, l, traits[..n], k), AtomicState.DeleteTraits(index, traits[..n], k), traits[n];
      var b2 := Replay(b1, DeleteBatch(b1, at, l, t, k));
      DeleteStoresList(b1, at, sc, l, t, AtomicState.KeysOf(index1, t), k);
      IndexStep(b1, b2, at, sc, l, index1, t, LinkedList.DeleteList(AtomicState.KeysOf(index1, t), k));
      Widen(at, sc, ListArea(l, t), IndexArea(l), b1, b2);
    }
  }

  /** After the lists, one element is written: the rest of the lane stays. */
  lemma ElementWritten(b: Db, b1: Db, at: Layout, sc: Scope, l: Lane, s: AtomicState.Space, s': AtomicState.Space, k: Key, c: Option<Cell>)
    requires LaidOut(at, sc) && l in sc.lanes && Stores(b, at, sc, l, s)
    requires OnlyIn(at, sc, IndexArea(l), b, b1) && HoldsIndex(b1, at, sc, l, s'.index)
    requires forall x :: x != k ==> AtomicState.Lookup(s, x) == AtomicState.Lookup(s', x)
    requires ElementOf(c) == AtomicState.Lookup(s', k)
    ensures var b' := ApplyWrite(b1, Write(at(ValueAt(l, k)), c));
            HoldsElements(b', at, l, s') && HoldsIndex(b', at, sc, l, s'.index) && OnlyIn(at, sc, LaneArea(l), b, b')
  {
    var b' := ApplyWrite(b1, Write(at(ValueAt(l, k)), c));
    OneWrite(b1, at, sc, ElementArea(l, k), ValueAt(l, k), c);
    forall x
      ensures ElementIn(b', at, l, x) == AtomicState.Lookup(s', x)
    {
      assert ElementIn(b, at, l, x) == AtomicState.Lookup(s, x);
      if x != k {
        Untouched(at, sc, IndexArea(l), b, b1, ValueAt(l, x));
        Untouched(at, sc, ElementArea(l, k), b1, b', ValueAt(l, x));
      }
    }
    forall t | (l, t) in sc.names
      ensures HoldsList(b', at, l, t, AtomicState.KeysOf(s'.index, t))
    {
      ListKept(b1, b', at, sc, l, t, ElementArea(l, k), AtomicState.KeysOf(s'.index, t));
    }
    Widen(at, sc, IndexArea(l), LaneArea(l), b, b1);
    Widen(at, sc, ElementArea(l, k), LaneArea(l), b1, b');
  }

  /** SetValue fails exactly if the element is present, and otherwise leaves the space that SetValue of the
      abstract state leaves, touching no key outside its lane. */
  lemma SetValueStores(b: Db, at: Layout, sc: Scope, l: Lane, s: AtomicState.Space, e: AtomicState.Element)
    requires LaidOut(at, sc) && l in sc.lanes && NamesIn(sc, l, e.traits) && Stores(b, at, sc, l, s)
    ensures SetValue(b, at, l, e).Some? <==> AtomicState.SetValue(s, e).Some?
    ensures SetValue(b, at, l, e) == None <==> ElementIn(b, at, l, e.key).Some? && ElementIn(b, at, l, e.key).value.present
    ensures SetValue(b, at, l, e).Some? ==>
              Stores(SetValue(b, at, l, e).value, at, sc, l, AtomicState.SetValue(s, e).value) &&
              OnlyIn(at, sc, LaneArea(l), b, SetValue(b, at, l, e).value)
  {
    assert ElementIn(b, at, l, e.key) == AtomicState.Lookup(s, e.key);
    if SetValue(b, at, l, e).Some? {
      var s' := AtomicState.SetValue(s, e).value;
      if e.key in s.values {
        ElementWritten(b, b, at, sc, l, s, s', e.key, None);
      } else {
        PutTraitsStores(b, at, sc, l, s.index, e.traits, e.key);
        ElementWritten(b, PutTraits(b, at, l, e.traits, e.key), at, sc, l, s, s', e.key,
                       Some(ElementCell(AtomicState.DbElement(true, e.value, e.traits))));
      }
    }
  }

  lemma RemoveValueStores(b: Db, at: Layout, sc: Scope, l: Lane, s: AtomicState.Space, k: Key)
    requires LaidOut(at, sc) && l in sc.lanes && Stores(b, at, sc, l, s)
    ensures RemoveValue(b, at, l, k).Some? <==> AtomicState.RemoveValue(s, k).Some?
    ensures RemoveValue(b, at, l, k) == None <==> ElementIn(b, at, l, k).Some? && !ElementIn(b, at, l, k).value.present
    ensures RemoveValue(b, at, l, k).Some? ==>
              Stores(RemoveValue(b, at, l, k).value, at, sc, l, AtomicState.RemoveValue(s, k).value) &&
              OnlyIn(at, sc, LaneArea(l), b, RemoveValue(b, at, l, k).value)
  {
    assert ElementIn(b, at, l, k) == AtomicState.Lookup(s, k);
    if k !in s.values {
      ElementWritten(b, b, at, sc, l, s, AtomicState.RemoveValue(s, k).value, k, Some(ElementCell(AtomicState.TOMBSTONE)));
    } else if s.values[k].present {
      RemovePresentStores(b, at, sc, l, s, k);
    }
  }

  lemma RemovePresentStores(b: Db, at: Layout, sc: Scope, l: Lane, s: AtomicState.Space, k: Key)
    requires LaidOut(at, sc) && l in sc.lanes && Stores(b, at, sc, l, s) && k in s.values && s.values[k].present
    ensures var b' := ApplyWrite(DeleteTraits(b, at, l, s.values[k].traits, k), Write(at(ValueAt(l, k)), None));
            Stores(b', at, sc, l, AtomicState.RemoveValue(s, k).value) && OnlyIn(at, sc, LaneArea(l), b, b')
  {
    var traits := s.values[k].traits;
    DeleteTraitsStores(b, at, sc, l, s.index, traits, k);
    ElementWritten(b, DeleteTraits(b, at, l, traits, k), at, sc, l, s, AtomicState.RemoveValue(s, k).value, k, None);
  }
}
