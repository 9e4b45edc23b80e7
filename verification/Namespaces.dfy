/** Who owns which database keys in shared memory: sharedID of chains/atomic/memory.go, the prefixes
of chains/atomic/prefixes.go and the hashed prefixes of database/prefixdb/db.go.

The hash is a parameter. Nothing is assumed of it but 32-byte results and, where keys must be told
apart, that it does not collide on the inputs hashed for the addresses at hand. */
module Namespaces {
  import opened ByteStrings
  import LinkedList

  type Hash = Bytes -> Bytes

  lemma ConcatSplits(a: Bytes, b: Bytes, a': Bytes, b': Bytes)
    requires |a| == |a'| && a + b == a' + b'
    ensures a == a' && b == b'
  {
    assert a == (a + b)[..|a|] && b == (a + b)[|a|..];
    assert a' == (a' + b')[..|a|] && b' == (a' + b')[|a|..];
  }

  predicate IsId(id: Bytes) {
    |id| == 32
  }

  /** The codec version, two bytes, in front of every marshalled value. */
  const CODEC_VERSION: Bytes := [0, 0]

  function PairBytes(a: Bytes, b: Bytes): Bytes {
    if Less(b, a) then CODEC_VERSION + b + a else CODEC_VERSION + a + b
  }

  function SharedId(h: Hash, a: Bytes, b: Bytes): Bytes {
    h(PairBytes(a, b))
  }

  datatype Kind = Value | Index

  function InboundSmaller(kind: Kind): Bytes {
    if kind.Value? then [0] else [1]
  }

  function InboundLarger(kind: Kind): Bytes {
    if kind.Value? then [2] else [3]
  }

  function InboundPrefix(kind: Kind, mine: Bytes, peer: Bytes): Bytes {
    if Less(mine, peer) then InboundSmaller(kind) else InboundLarger(kind)
  }

  /** inbound with its smaller and larger prefixes swapped */
  function OutboundPrefix(kind: Kind, mine: Bytes, peer: Bytes): Bytes {
    if Less(mine, peer) then InboundLarger(kind) else InboundSmaller(kind)
  }

  // ---- hashed prefixes ----------------------------------------------------------------------

  /** A prefixdb over some database: NewNested hashes its prefix, New on a prefixdb first joins. */
  function NewNested(h: Hash, prefix: Bytes): Bytes {
    h(prefix)
  }

  function NewOn(h: Hash, outer: Bytes, prefix: Bytes): Bytes {
    h(outer + prefix)
  }

  function SharedPrefix(h: Hash, a: Bytes, b: Bytes): Bytes {
    NewNested(h, SharedId(h, a, b))
  }

  function InboundDb(h: Hash, kind: Kind, mine: Bytes, peer: Bytes): Bytes {
    NewOn(h, SharedPrefix(h, peer, mine), InboundPrefix(kind, mine, peer))
  }

  function OutboundDb(h: Hash, kind: Kind, mine: Bytes, peer: Bytes): Bytes {
    NewOn(h, SharedPrefix(h, mine, peer), OutboundPrefix(kind, mine, peer))
  }

  lemma PairSymmetric(a: Bytes, b: Bytes)
    ensures PairBytes(a, b) == PairBytes(b, a)
  {
    Total(a, b);
    if Less(a, b) { Asymmetric(a, b); }
    if Less(b, a) { Asymmetric(b, a); }
  }

  lemma SharedIdSymmetric(h: Hash, a: Bytes, b: Bytes)
    ensures SharedId(h, a, b) == SharedId(h, b, a)
  {
    PairSymmetric(a, b);
  }

  // ---- addresses ----------------------------------------------------------------------------

  /** One of the two spaces that a pair of chains shares. The larger one is inbound for the larger chain. */
  datatype Lane = Lane(low: Bytes, high: Bytes, larger: bool)

  predicate IsLane(l: Lane) {
    IsId(l.low) && IsId(l.high) && !Less(l.high, l.low)
  }

  function InboundLane(mine: Bytes, peer: Bytes): Lane {
    if Less(mine, peer) then Lane(mine, peer, false) else Lane(peer, mine, true)
  }

  function OutboundLane(mine: Bytes, peer: Bytes): Lane {
    if Less(mine, peer) then Lane(mine, peer, true) else Lane(peer, mine, false)
  }

  /** What one chain sends is what the other receives, except for a chain paired with itself: its two
      spaces never meet, so it cannot receive what it sends. */
  lemma OutboundIsPeersInbound(a: Bytes, b: Bytes)
    ensures OutboundLane(a, b) == InboundLane(b, a) <==> a != b
  {
    Total(a, b);
    Irreflexive(a);
    if Less(a, b) { Asymmetric(a, b); }
    if Less(b, a) { Asymmetric(b, a); }
  }

  /** The other chain of a lane. */
  function Other(l: Lane, mine: Bytes): Bytes {
    if l.low == mine then l.high else l.low
  }

  /** A chain has one inbound and one outbound lane for each peer, and they are all different. */
  lemma LanesOf(mine: Bytes, peer: Bytes)
    ensures Other(InboundLane(mine, peer), mine) == peer && Other(OutboundLane(mine, peer), mine) == peer
    ensures InboundLane(mine, peer) != OutboundLane(mine, peer)
    ensures IsId(mine) && IsId(peer) ==> IsLane(InboundLane(mine, peer)) && IsLane(OutboundLane(mine, peer))
  {
    if Less(mine, peer) { Asymmetric(mine, peer); }
  }

  /** Where shared memory keeps things: an element, or the head or a node of a trait's list. */
  datatype Address =
    | ValueAt(lane: Lane, key: Bytes)
    | HeadAt(lane: Lane, name: Bytes)
    | NodeAt(lane: Lane, name: Bytes, key: Bytes)

  function SidePrefix(kind: Kind, larger: bool): Bytes {
    if larger then InboundLarger(kind) else InboundSmaller(kind)
  }

  function LanePrefix(h: Hash, kind: Kind, l: Lane): Bytes {
    NewOn(h, SharedPrefix(h, l.low, l.high), SidePrefix(kind, l.larger))
  }

  /** The databases that the source picks for a chain and its peer are those of the two lanes. */
  lemma PrefixesOfLanes(h: Hash, kind: Kind, mine: Bytes, peer: Bytes)
    ensures InboundDb(h, kind, mine, peer) == LanePrefix(h, kind, InboundLane(mine, peer))
    ensures OutboundDb(h, kind, mine, peer) == LanePrefix(h, kind, OutboundLane(mine, peer))
  {
    SharedIdSymmetric(h, mine, peer);
  }

  function TraitPrefix(h: Hash, l: Lane, name: Bytes): Bytes {
    NewOn(h, LanePrefix(h, Index, l), name)
  }

  /** The database holding the address, and the key inside it. */
  function DbPrefix(h: Hash, a: Address): Bytes {
    if a.ValueAt? then LanePrefix(h, Value, a.lane) else TraitPrefix(h, a.lane, a.name)
  }

  function InnerKey(a: Address): Bytes {
    match a
    case ValueAt(_, key) => key
    case HeadAt(_, _) => LinkedList.HEAD_KEY
    case NodeAt(_, _, key) => LinkedList.NodeKey(key)
  }

  function DbKey(h: Hash, a: Address): Bytes {
    DbPrefix(h, a) + InnerKey(a)
  }

  // ---- no two addresses share a key ---------------------------------------------------------

  /** No collision among the inputs in `used`. */
  ghost predicate NoCollision(h: Hash, used: set<Bytes>) {
    forall x, y :: x in used && y in used && h(x) == h(y) ==> x == y
  }

  ghost predicate Hashes32(h: Hash) {
    forall x :: IsId(h(x))
  }

  /** The inputs hashed on the way to the two prefixes of a lane, and to a trait's prefix. */
  function PrefixInput(h: Hash, kind: Kind, l: Lane): Bytes {
    SharedPrefix(h, l.low, l.high) + SidePrefix(kind, l.larger)
  }

  function LaneInputs(h: Hash, l: Lane): set<Bytes> {
    {PairBytes(l.low, l.high), SharedId(h, l.low, l.high), PrefixInput(h, Value, l), PrefixInput(h, Index, l)}
  }

  function TraitInput(h: Hash, l: Lane, name: Bytes): Bytes {
    LanePrefix(h, Index, l) + name
  }

  function Inputs(h: Hash, a: Address): set<Bytes> {
    LaneInputs(h, a.lane) + (if a.ValueAt? then {} else {TraitInput(h, a.lane, a.name)})
  }

  lemma PairSplits(x: Bytes, y: Bytes, x': Bytes, y': Bytes)
    requires |x| == |x'| && CODEC_VERSION + x + y == CODEC_VERSION + x' + y'
    ensures x == x' && y == y'
  {
    ConcatSplits(CODEC_VERSION + x, y, CODEC_VERSION + x', y');
    ConcatSplits(CODEC_VERSION, x, CODEC_VERSION, x');
  }

  /** The marshalled pair tells which two chains, but not their order. */
  lemma PairIdentifies(a: Bytes, b: Bytes, a': Bytes, b': Bytes)
    requires IsId(a) && IsId(b) && IsId(a') && IsId(b') && PairBytes(a, b) == PairBytes(a', b')
    ensures (a == a' && b == b') || (a == b' && b == a')
  {
    var (x, y) := if Less(b, a) then (b, a) else (a, b);
    var (x', y') := if Less(b', a') then (b', a') else (a', b');
    PairSplits(x, y, x', y');
  }

  /** Different lanes, and the value and index side of one lane, have different prefixes. */
  lemma LanePrefixIdentifies(h: Hash, kind: Kind, l: Lane, kind': Kind, l': Lane, used: set<Bytes>)
    requires Hashes32(h) && NoCollision(h, used) && LaneInputs(h, l) <= used && LaneInputs(h, l') <= used
    requires IsLane(l) && IsLane(l') && LanePrefix(h, kind, l) == LanePrefix(h, kind', l')
    ensures kind == kind' && l == l'
  {
    assert PrefixInput(h, kind, l) in used && PrefixInput(h, kind', l') in used;
    ConcatSplits(SharedPrefix(h, l.low, l.high), SidePrefix(kind, l.larger),
                 SharedPrefix(h, l'.low, l'.high), SidePrefix(kind', l'.larger));
    assert SharedId(h, l.low, l.high) == SharedId(h, l'.low, l'.high);
    PairSplits(l.low, l.high, l'.low, l'.high);
  }

  lemma TraitPrefixIdentifies(h: Hash, l: Lane, name: Bytes, l': Lane, name': Bytes, used: set<Bytes>)
    requires Hashes32(h) && NoCollision(h, used) && LaneInputs(h, l) <= used && LaneInputs(h, l') <= used
    requires TraitInput(h, l, name) in used && TraitInput(h, l', name') in used
    requires IsLane(l) && IsLane(l') && TraitPrefix(h, l, name) == TraitPrefix(h, l', name')
    ensures l == l' && name == name'
  {
    ConcatSplits(LanePrefix(h, Index, l), name, LanePrefix(h, Index, l'), name');
    LanePrefixIdentifies(h, Index, l, Index, l', used);
  }

  /** A trait's prefix is never a lane's: their inputs would have to nest a hash of 32 bytes in one of 33. */
  lemma TraitPrefixApart(h: Hash, l: Lane, name: Bytes, l': Lane, used: set<Bytes>)
    requires Hashes32(h) && NoCollision(h, used) && LaneInputs(h, l) <= used && LaneInputs(h, l') <= used
    requires TraitInput(h, l, name) in used && IsLane(l) && IsLane(l')
    ensures TraitPrefix(h, l, name) != LanePrefix(h, Value, l')
  {
    assert |PrefixInput(h, Index, l)| == 33 && |SharedId(h, l'.low, l'.high)| == 32;
    if TraitPrefix(h, l, name) == LanePrefix(h, Value, l') {
      ConcatSplits(LanePrefix(h, Index, l), name, SharedPrefix(h, l'.low, l'.high), SidePrefix(Value, l'.larger));
    }
  }

  /** Every address has a database key of its own: lanes of one pair, lanes of different pairs,
      values, traits and list entries never meet. */
  lemma AddressesNeverMeet(h: Hash, a: Address, a': Address, used: set<Bytes>)
    requires Hashes32(h) && NoCollision(h, used) && Inputs(h, a) <= used && Inputs(h, a') <= used
    requires IsLane(a.lane) && IsLane(a'.lane) && DbKey(h, a) == DbKey(h, a')
    ensures a == a'
  {
    ConcatSplits(DbPrefix(h, a), InnerKey(a), DbPrefix(h, a'), InnerKey(a'));
    if a.ValueAt? && a'.ValueAt? {
      LanePrefixIdentifies(h, Value, a.lane, Value, a'.lane, used);
    } else if a.ValueAt? {
      TraitPrefixApart(h, a'.lane, a'.name, a.lane, used);
    } else if a'.ValueAt? {
      TraitPrefixApart(h, a.lane, a.name, a'.lane, used);
    } else {
      TraitPrefixIdentifies(h, a.lane, a.name, a'.lane, a'.name, used);
      LinkedList.KeysNeverCollide(if a.NodeAt? then a.key else [], if a'.NodeAt? then a'.key else []);
    }
  }

  // ---- a layout for the lanes and traits in play ---------------------------------------------

  /** The lanes in play, and the traits in play in each. */
  datatype Scope = Scope(lanes: set<Lane>, names: set<(Lane, Bytes)>)

  predicate InScope(sc: Scope, a: Address) {
    a.lane in sc.lanes && (a.ValueAt? || (a.lane, a.name) in sc.names)
  }

  /** Everything that is hashed on the way to the addresses in scope. */
  ghost function ScopeInputs(h: Hash, sc: Scope): set<Bytes> {
    (set l, x | l in sc.lanes && x in LaneInputs(h, l) :: x) + (set n | n in sc.names :: TraitInput(h, n.0, n.1))
  }

  /** The hash does not collide on what is hashed for the scope. */
  ghost predicate Scoped(h: Hash, sc: Scope) {
    Hashes32(h) && NoCollision(h, ScopeInputs(h, sc)) && forall l :: l in sc.lanes ==> IsLane(l)
  }

  /** A key for each address. */
  type Layout = Address -> Bytes

  function KeysBy(h: Hash): Layout {
    a => DbKey(h, a)
  }

  ghost predicate LaidOut(at: Layout, sc: Scope) {
    forall a, a' :: InScope(sc, a) && InScope(sc, a') && at(a) == at(a') ==> a == a'
  }

  lemma HashedLayout(h: Hash, sc: Scope)
    requires Scoped(h, sc)
    ensures LaidOut(KeysBy(h), sc)
  {
    var used := ScopeInputs(h, sc);
    forall a, a' | InScope(sc, a) && InScope(sc, a') && KeysBy(h)(a) == KeysBy(h)(a')
      ensures a == a'
    {
      InputsUsed(h, sc, a);
      InputsUsed(h, sc, a');
      AddressesNeverMeet(h, a, a', used);
    }
  }

  /** So the outbound database of a chain is the inbound one of its peer, unless the two are one chain. */
  lemma OutboundDbIsPeersInbound(h: Hash, kind: Kind, a: Bytes, b: Bytes, sc: Scope)
    requires Scoped(h, sc) && OutboundLane(a, b) in sc.lanes && InboundLane(b, a) in sc.lanes
    ensures OutboundDb(h, kind, a, b) == InboundDb(h, kind, b, a) <==> a != b
  {
    var l, l' := OutboundLane(a, b), InboundLane(b, a);
    PrefixesOfLanes(h, kind, a, b);
    PrefixesOfLanes(h, kind, b, a);
    OutboundIsPeersInbound(a, b);
    InputsUsed(h, sc, ValueAt(l, []));
    InputsUsed(h, sc, ValueAt(l', []));
    if LanePrefix(h, kind, l) == LanePrefix(h, kind, l') { LanePrefixIdentifies(h, kind, l, kind, l', ScopeInputs(h, sc)); }
  }

  lemma InputsUsed(h: Hash, sc: Scope, a: Address)
    requires InScope(sc, a)
    ensures Inputs(h, a) <= ScopeInputs(h, sc)
  {
    if !a.ValueAt? { assert (a.lane, a.name) in sc.names; }
  }

  // ---- the lock order of Apply --------------------------------------------------------------

  /** Distinct peers of one chain have distinct shared IDs. */
  lemma SharedIdsDistinct(h: Hash, mine: Bytes, p: Bytes, q: Bytes, used: set<Bytes>)
    requires NoCollision(h, used) && PairBytes(mine, p) in used && PairBytes(mine, q) in used
    requires IsId(mine) && IsId(p) && IsId(q) && p != q
    ensures SharedId(h, mine, p) != SharedId(h, mine, q)
  {
    if SharedId(h, mine, p) == SharedId(h, mine, q) { PairIdentifies(mine, p, mine, q); }
  }
}
