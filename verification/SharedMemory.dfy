/** chains/atomic/shared_memory.go: Apply gathers the removes and puts of all its peers in one
overlay and writes them with the caller's batches, or writes nothing. */
module SharedMemory {
  import opened Options
  import opened ByteStrings
  import opened Namespaces
  import opened VersionDb
  import opened SharedSpaces
  import AtomicState
  import LinkedList

  /*
  The database is shared by all chains and keyed by bytes. The theorems here are about all the lanes in
  scope at once: what one Apply does to each of them, and what any history of Apply calls leaves in
  them. They need of the keys only that the addresses in scope have different ones, which
  Namespaces shows of the hashed prefixes. SharedRuns takes the calls from threads that interleave;
  ChainMemory performs them in place.
  */

  /** The contents of one lane, and an operation on it. */
  type Space = AtomicState.Space
  type Op = AtomicState.Op

  /** What a chain asks of one peer: inbound elements to remove and outbound elements to put. */
  datatype Requests = Requests(removes: seq<Key>, puts: seq<AtomicState.Element>)

  /** One call of Apply by chain `me`; `fails` when some database access does. */
  datatype Call = Call(me: Bytes, peers: seq<Bytes>, reqs: map<Bytes, Requests>, batch: Batch, fails: bool)

  // ---- one lane, one peer, all peers --------------------------------------------------------

  function StepLane(b: Db, at: Layout, l: Lane, op: Op): Option<Db> {
    match op
    case PutOp(e) => SetValue(b, at, l, e)
    case RemoveOp(k) => RemoveValue(b, at, l, k)
  }

  function RunLane(b: Db, at: Layout, l: Lane, ops: seq<Op>): Option<Db> {
    if ops == [] then Some(b)
    else
      var r := RunLane(b, at, l, ops[..|ops| - 1]);
      if r.None? then None else StepLane(r.value, at, l, ops[|ops| - 1])
  }

  function RemoveOps(removes: seq<Key>): seq<Op> {
    seq(|removes|, i requires 0 <= i < |removes| => AtomicState.RemoveOp(removes[i]))
  }

  function PutOps(puts: seq<AtomicState.Element>): seq<Op> {
    seq(|puts|, i requires 0 <= i < |puts| => AtomicState.PutOp(puts[i]))
  }

  /** The removes are inbound, the puts outbound. */
  function ApplyPeer(b: Db, at: Layout, me: Bytes, peer: Bytes, req: Requests): Option<Db> {
    var r := RunLane(b, at, InboundLane(me, peer), RemoveOps(req.removes));
    if r.None? then None else RunLane(r.value, at, OutboundLane(me, peer), PutOps(req.puts))
  }

  function ApplyPeers(b: Db, at: Layout, me: Bytes, peers: seq<Bytes>, reqs: map<Bytes, Requests>): Option<Db>
    requires forall p :: p in peers ==> p in reqs
  {
    if peers == [] then Some(b)
    else
      var r := ApplyPeers(b, at, me, peers[..|peers| - 1], reqs);
      if r.None? then None else ApplyPeer(r.value, at, me, peers[|peers| - 1], reqs[peers[|peers| - 1]])
  }

  // ---- what Apply does to every lane --------------------------------------------------------

  /** The lane, and the traits of what is put there, are in scope. */
  predicate OpsIn(sc: Scope, l: Lane, ops: seq<Op>) {
    l in sc.lanes && forall i :: 0 <= i < |ops| ==> ops[i].PutOp? ==> NamesIn(sc, l, ops[i].element.traits)
  }

  lemma StepLaneStores(b: Db, at: Layout, sc: Scope, l: Lane, s: Space, op: Op)
    requires LaidOut(at, sc) && OpsIn(sc, l, [op]) && Stores(b, at, sc, l, s)
    ensures StepLane(b, at, l, op).Some? <==> AtomicState.Step(s, op).Some?
    ensures StepLane(b, at, l, op).Some? ==>
              Stores(StepLane(b, at, l, op).value, at, sc, l, AtomicState.Step(s, op).value) &&
              OnlyIn(at, sc, LaneArea(l), b, StepLane(b, at, l, op).value)
  {
    assert [op][0] == op;
    match op
    case PutOp(e) => SetValueStores(b, at, sc, l, s, e);
    case RemoveOp(k) => RemoveValueStores(b, at, sc, l, s, k);
  }

  lemma {:induction false} RunLaneStores(b: Db, at: Layout, sc: Scope, l: Lane, s: Space, ops: seq<Op>)
    requires LaidOut(at, sc) && OpsIn(sc, l, ops) && Stores(b, at, sc, l, s)
    ensures RunLane(b, at, l, ops).Some? <==> AtomicState.Run(s, ops).Some?
    ensures RunLane(b, at, l, ops).Some? ==> Stores(RunLane(b, at, l, ops).value, at, sc, l, AtomicState.Run(s, ops).value)
    ensures RunLane(b, at, l, ops).Some? ==> OnlyIn(at, sc, LaneArea(l), b, RunLane(b, at, l, ops).value)
  {
    if ops != [] {
      var n := |ops| - 1;
      RunLaneStores(b, at, sc, l, s, ops[..n]);
      if RunLane(b, at, l, ops[..n]).Some? {
        StepLaneStores(RunLane(b, at, l, ops[..n]).value, at, sc, l, AtomicState.Run(s, ops[..n]).value, ops[n]);
      }
    }
  }

  ghost predicate StoresAll(b: Db, at: Layout, sc: Scope, spaces: Lane -> Space) {
    forall l :: l in sc.lanes ==> Stores(b, at, sc, l, spaces(l))
  }

  ghost function Updated(spaces: Lane -> Space, l: Lane, s: Space): Lane -> Space {
    x => if x == l then s else spaces(x)
  }

  lemma RunLaneStoresAll(b: Db, at: Layout, sc: Scope, spaces: Lane -> Space, l: Lane, ops: seq<Op>)
    requires LaidOut(at, sc) && OpsIn(sc, l, ops) && StoresAll(b, at, sc, spaces)
    ensures RunLane(b, at, l, ops).Some? <==> AtomicState.Run(spaces(l), ops).Some?
    ensures RunLane(b, at, l, ops).Some? ==>
              StoresAll(RunLane(b, at, l, ops).value, at, sc, Updated(spaces, l, AtomicState.Run(spaces(l), ops).value))
  {
    RunLaneStores(b, at, sc, l, spaces(l), ops);
    if RunLane(b, at, l, ops).Some? {
      var b', spaces' := RunLane(b, at, l, ops).value, Updated(spaces, l, AtomicState.Run(spaces(l), ops).value);
      forall x | x in sc.lanes
        ensures Stores(b', at, sc, x, spaces'(x))
      {
        if x != l { OtherLaneKept(b, b', at, sc, l, x, spaces(x)); }
      }
    }
  }

  /** The operations that the requests of `me` hold for a lane. */
  function LaneOps(l: Lane, me: Bytes, peers: seq<Bytes>, reqs: map<Bytes, Requests>): seq<Op>
    requires forall p :: p in peers ==> p in reqs
  {
    var p := Other(l, me);
    if p !in peers then []
    else if l == InboundLane(me, p) then RemoveOps(reqs[p].removes)
    else if l == OutboundLane(me, p) then PutOps(reqs[p].puts)
    else []
  }

  /** What the requests make of the space of a lane. */
  ghost function After(spaces: Lane -> Space, me: Bytes, peers: seq<Bytes>, reqs: map<Bytes, Requests>, l: Lane): Option<Space>
    requires forall p :: p in peers ==> p in reqs
  {
    AtomicState.Run(spaces(l), LaneOps(l, me, peers, reqs))
  }

  ghost function PeerSpaces(spaces: Lane -> Space, me: Bytes, p: Bytes, into: Space, out: Space): Lane -> Space {
    Updated(Updated(spaces, InboundLane(me, p), into), OutboundLane(me, p), out)
  }

  /** The two lanes of a pair, and all traits put, are in scope. */
  predicate PeerIn(sc: Scope, me: Bytes, p: Bytes, req: Requests) {
    OpsIn(sc, InboundLane(me, p), RemoveOps(req.removes)) && OpsIn(sc, OutboundLane(me, p), PutOps(req.puts))
  }

  lemma ApplyPeerStores(b: Db, at: Layout, sc: Scope, spaces: Lane -> Space, me: Bytes, p: Bytes, req: Requests)
    requires LaidOut(at, sc) && PeerIn(sc, me, p, req) && StoresAll(b, at, sc, spaces)
    ensures var into := AtomicState.Run(spaces(InboundLane(me, p)), RemoveOps(req.removes));
            var out := AtomicState.Run(spaces(OutboundLane(me, p)), PutOps(req.puts));
            && (ApplyPeer(b, at, me, p, req).Some? <==> into.Some? && out.Some?)
            && (ApplyPeer(b, at, me, p, req).Some? ==>
                  StoresAll(ApplyPeer(b, at, me, p, req).value, at, sc,
                            PeerSpaces(spaces, me, p, into.value, out.value)))
  {
    LanesOf(me, p);
    RunLaneStoresAll(b, at, sc, spaces, InboundLane(me, p), RemoveOps(req.removes));
    var r := RunLane(b, at, InboundLane(me, p), RemoveOps(req.removes));
    if r.Some? {
      var into := AtomicState.Run(spaces(InboundLane(me, p)), RemoveOps(req.removes)).value;
      RunLaneStoresAll(r.value, at, sc, Updated(spaces, InboundLane(me, p), into), OutboundLane(me, p), PutOps(req.puts));
    }
  }

  predicate Peers(peers: seq<Bytes>, reqs: map<Bytes, Requests>) {
    && (forall p :: p in peers ==> p in reqs)
    && (forall i, j :: 0 <= i < j < |peers| ==> peers[i] != peers[j])
  }

  predicate PeersIn(sc: Scope, me: Bytes, peers: seq<Bytes>, reqs: map<Bytes, Requests>) {
    Peers(peers, reqs) && forall p :: p in peers ==> PeerIn(sc, me, p, reqs[p])
  }

  lemma PeersPrefix(peers: seq<Bytes>, reqs: map<Bytes, Requests>, n: nat)
    requires Peers(peers, reqs) && n <= |peers|
    ensures Peers(peers[..n], reqs)
  {
    forall p | p in peers[..n]
      ensures p in reqs
    {
      assert p in peers;
    }
  }

  lemma PeersBefore(peers: seq<Bytes>, reqs: map<Bytes, Requests>)
    requires Peers(peers, reqs) && peers != []
    ensures Peers(peers[..|peers| - 1], reqs) && peers[|peers| - 1] !in peers[..|peers| - 1]
    ensures peers == peers[..|peers| - 1] + [peers[|peers| - 1]]
  {
    PeersPrefix(peers, reqs, |peers| - 1);
  }

  ghost predicate AllSucceed(spaces: Lane -> Space, me: Bytes, peers: seq<Bytes>, reqs: map<Bytes, Requests>)
    requires forall p :: p in peers ==> p in reqs
  {
    forall l :: After(spaces, me, peers, reqs, l).Some?
  }

  ghost function AfterAll(spaces: Lane -> Space, me: Bytes, peers: seq<Bytes>, reqs: map<Bytes, Requests>): Lane -> Space
    requires forall p :: p in peers ==> p in reqs
  {
    l => var a := After(spaces, me, peers, reqs, l); if a.Some? then a.value else AtomicState.EmptySpace
  }

  lemma AfterOneMore(spaces: Lane -> Space, me: Bytes, before: seq<Bytes>, p: Bytes, reqs: map<Bytes, Requests>, l: Lane)
    requires Peers(before, reqs) && p !in before && p in reqs
    requires After(spaces, me, before, reqs, l).Some?
    ensures var s1 := AfterAll(spaces, me, before, reqs)(l);
            After(spaces, me, before + [p], reqs, l) ==
              if l == InboundLane(me, p) then AtomicState.Run(s1, RemoveOps(reqs[p].removes))
              else if l == OutboundLane(me, p) then AtomicState.Run(s1, PutOps(reqs[p].puts))
              else Some(s1)
  {
    LanesOf(me, p);
  }

  lemma AllSucceedOneMore(spaces: Lane -> Space, me: Bytes, before: seq<Bytes>, p: Bytes, reqs: map<Bytes, Requests>)
    requires Peers(before, reqs) && p !in before && p in reqs
    requires AllSucceed(spaces, me, before, reqs)
    ensures var spaces1 := AfterAll(spaces, me, before, reqs);
            AllSucceed(spaces, me, before + [p], reqs) <==>
              && AtomicState.Run(spaces1(InboundLane(me, p)), RemoveOps(reqs[p].removes)).Some?
              && AtomicState.Run(spaces1(OutboundLane(me, p)), PutOps(reqs[p].puts)).Some?
  {
    LanesOf(me, p);
    forall l
      ensures After(spaces, me, before, reqs, l).Some?
    {
    }
    AfterOneMore(spaces, me, before, p, reqs, InboundLane(me, p));
    AfterOneMore(spaces, me, before, p, reqs, OutboundLane(me, p));
    forall l | l != InboundLane(me, p) && l != OutboundLane(me, p)
      ensures After(spaces, me, before + [p], reqs, l).Some?
    {
      AfterOneMore(spaces, me, before, p, reqs, l);
    }
  }

  lemma ApplyOneMore(b: Db, at: Layout, sc: Scope, spaces: Lane -> Space, me: Bytes, before: seq<Bytes>, p: Bytes, reqs: map<Bytes, Requests>)
    requires LaidOut(at, sc) && Peers(before, reqs) && p !in before && p in reqs && PeerIn(sc, me, p, reqs[p])
    requires StoresAll(b, at, sc, AfterAll(spaces, me, before, reqs)) && AllSucceed(spaces, me, before, reqs)
    ensures ApplyPeer(b, at, me, p, reqs[p]).Some? <==> AllSucceed(spaces, me, before + [p], reqs)
    ensures ApplyPeer(b, at, me, p, reqs[p]).Some? ==>
              StoresAll(ApplyPeer(b, at, me, p, reqs[p]).value, at, sc, AfterAll(spaces, me, before + [p], reqs))
  {
    var spaces1 := AfterAll(spaces, me, before, reqs);
    ApplyPeerStores(b, at, sc, spaces1, me, p, reqs[p]);
    AllSucceedOneMore(spaces, me, before, p, reqs);
    if ApplyPeer(b, at, me, p, reqs[p]).Some? {
      var b', spaces' := ApplyPeer(b, at, me, p, reqs[p]).value, AfterAll(spaces, me, before + [p], reqs);
      var g := PeerSpaces(spaces1, me, p, AtomicState.Run(spaces1(InboundLane(me, p)), RemoveOps(reqs[p].removes)).value,
                          AtomicState.Run(spaces1(OutboundLane(me, p)), PutOps(reqs[p].puts)).value);
      forall l | l in sc.lanes
        ensures Stores(b', at, sc, l, spaces'(l))
      {
        LanesOf(me, p);
        AfterOneMore(spaces, me, before, p, reqs, l);
        assert g(l) == spaces'(l);
      }
    }
  }

  /** Apply succeeds exactly when the operations of every lane do, and leaves each lane with its own
      operations done: inbound removed, outbound put, every other pair of chains untouched. */
  lemma {:induction false} ApplyStores(b: Db, at: Layout, sc: Scope, spaces: Lane -> Space, me: Bytes, peers: seq<Bytes>, reqs: map<Bytes, Requests>)
    requires LaidOut(at, sc) && StoresAll(b, at, sc, spaces) && PeersIn(sc, me, peers, reqs)
    ensures ApplyPeers(b, at, me, peers, reqs).Some? <==> AllSucceed(spaces, me, peers, reqs)
    ensures ApplyPeers(b, at, me, peers, reqs).Some? ==>
              StoresAll(ApplyPeers(b, at, me, peers, reqs).value, at, sc, AfterAll(spaces, me, peers, reqs))
  {
    if peers == [] {
      assert forall l :: After(spaces, me, peers, reqs, l) == Some(spaces(l));
    } else {
      var before, p := peers[..|peers| - 1], peers[|peers| - 1];
      PeersBefore(peers, reqs);
      ApplyStores(b, at, sc, spaces, me, before, reqs);
      if ApplyPeers(b, at, me, before, reqs).Some? {
        ApplyOneMore(ApplyPeers(b, at, me, before, reqs).value, at, sc, spaces, me, before, p, reqs);
      } else {
        var l :| After(spaces, me, before, reqs, l).None?;
        assert After(spaces, me, peers, reqs, l).None?;
      }
    }
  }

  /** Some request to this peer puts an element that is present by then, or removes one twice ahead of its put;
      what is there is read from the database before the call. */
  ghost predicate PeerRefused(b: Db, at: Layout, me: Bytes, p: Bytes, req: Requests) {
    || AtomicState.AnyRefused(k => ElementIn(b, at, InboundLane(me, p), k), RemoveOps(req.removes))
    || AtomicState.AnyRefused(k => ElementIn(b, at, OutboundLane(me, p), k), PutOps(req.puts))
  }

  lemma RefusedInDb(b: Db, at: Layout, sc: Scope, l: Lane, s: Space, ops: seq<Op>)
    requires Stores(b, at, sc, l, s)
    ensures AtomicState.AnyRefused(k => ElementIn(b, at, l, k), ops) <==> AtomicState.Run(s, ops) == None
  {
    AtomicState.RunRefuses(s, ops);
    AtomicState.SameRefused(k => ElementIn(b, at, l, k), k => AtomicState.Lookup(s, k), ops);
  }

  lemma LaneOpsOf(me: Bytes, peers: seq<Bytes>, reqs: map<Bytes, Requests>, p: Bytes)
    requires (forall q :: q in peers ==> q in reqs) && p in peers
    ensures LaneOps(InboundLane(me, p), me, peers, reqs) == RemoveOps(reqs[p].removes)
    ensures LaneOps(OutboundLane(me, p), me, peers, reqs) == PutOps(reqs[p].puts)
  {
    LanesOf(me, p);
  }

  /** Apply is refused exactly if some request to some peer is. */
  lemma ApplyRefused(b: Db, at: Layout, sc: Scope, spaces: Lane -> Space, me: Bytes, peers: seq<Bytes>, reqs: map<Bytes, Requests>)
    requires LaidOut(at, sc) && StoresAll(b, at, sc, spaces) && PeersIn(sc, me, peers, reqs)
    ensures ApplyPeers(b, at, me, peers, reqs) == None <==> exists p :: p in peers && PeerRefused(b, at, me, p, reqs[p])
  {
    ApplyStores(b, at, sc, spaces, me, peers, reqs);
    forall p | p in peers
      ensures PeerRefused(b, at, me, p, reqs[p]) <==>
                After(spaces, me, peers, reqs, InboundLane(me, p)).None? || After(spaces, me, peers, reqs, OutboundLane(me, p)).None?
    {
      LaneOpsOf(me, peers, reqs, p);
      assert PeerIn(sc, me, p, reqs[p]);
      RefusedInDb(b, at, sc, InboundLane(me, p), spaces(InboundLane(me, p)), RemoveOps(reqs[p].removes));
      RefusedInDb(b, at, sc, OutboundLane(me, p), spaces(OutboundLane(me, p)), PutOps(reqs[p].puts));
    }
    if l :| After(spaces, me, peers, reqs, l).None? {
      var p := Other(l, me);
      assert p in peers && (l == InboundLane(me, p) || l == OutboundLane(me, p));
      assert PeerRefused(b, at, me, p, reqs[p]);
    }
  }

  /** What Apply leaves under a key of a peer: on the inbound side what the removes leave, on the outbound side what
      the puts leave, whatever was there before. */
  lemma ApplyLeaves(b: Db, at: Layout, sc: Scope, spaces: Lane -> Space, me: Bytes, peers: seq<Bytes>, reqs: map<Bytes, Requests>, p: Bytes, k: Key)
    requires LaidOut(at, sc) && StoresAll(b, at, sc, spaces) && PeersIn(sc, me, peers, reqs)
    requires p in peers && ApplyPeers(b, at, me, peers, reqs).Some?
    ensures var b', into, out := ApplyPeers(b, at, me, peers, reqs).value, InboundLane(me, p), OutboundLane(me, p);
            && ElementIn(b', at, into, k) == AtomicState.Left(ElementIn(b, at, into, k), RemoveOps(reqs[p].removes), k)
            && ElementIn(b', at, out, k) == AtomicState.Left(ElementIn(b, at, out, k), PutOps(reqs[p].puts), k)
  {
    assert PeerIn(sc, me, p, reqs[p]);
    LaneOpsOf(me, peers, reqs, p);
    LaneLeaves(b, at, sc, spaces, me, peers, reqs, InboundLane(me, p), k);
    LaneLeaves(b, at, sc, spaces, me, peers, reqs, OutboundLane(me, p), k);
  }

  lemma LaneLeaves(b: Db, at: Layout, sc: Scope, spaces: Lane -> Space, me: Bytes, peers: seq<Bytes>, reqs: map<Bytes, Requests>, l: Lane, k: Key)
    requires LaidOut(at, sc) && StoresAll(b, at, sc, spaces) && PeersIn(sc, me, peers, reqs) && l in sc.lanes
    requires ApplyPeers(b, at, me, peers, reqs).Some?
    ensures ElementIn(ApplyPeers(b, at, me, peers, reqs).value, at, l, k) ==
              AtomicState.Left(ElementIn(b, at, l, k), LaneOps(l, me, peers, reqs), k)
  {
    var b', ops := ApplyPeers(b, at, me, peers, reqs).value, LaneOps(l, me, peers, reqs);
    ApplyStores(b, at, sc, spaces, me, peers, reqs);
    AtomicState.RunRefuses(spaces(l), ops);
    var s' := AfterAll(spaces, me, peers, reqs)(l);
    assert Stores(b, at, sc, l, spaces(l)) && Stores(b', at, sc, l, s');
    assert After(spaces, me, peers, reqs, l) == Some(s');
    assert ElementIn(b, at, l, k) == AtomicState.Lookup(spaces(l), k) && ElementIn(b', at, l, k) == AtomicState.Lookup(s', k);
  }

  /** One put or one remove of the key among operations that mention it once. */
  lemma {:induction false} NetOfOne(ops: seq<Op>, k: Key, i: nat)
    requires i < |ops| && AtomicState.KeyOf(ops[i]) == k
    requires forall j :: 0 <= j < |ops| && j != i ==> AtomicState.KeyOf(ops[j]) != k
    ensures AtomicState.Net(ops, k) == (if ops[i].PutOp? then 1 else -1) && AtomicState.Mentions(ops, k)
  {
    var n := |ops| - 1;
    if i == n { NetOfNone(ops[..n], k); } else { NetOfOne(ops[..n], k, i); }
  }

  lemma {:induction false} NetOfNone(ops: seq<Op>, k: Key)
    requires forall j :: 0 <= j < |ops| ==> AtomicState.KeyOf(ops[j]) != k
    ensures AtomicState.Net(ops, k) == 0
  {
    if ops != [] { NetOfNone(ops[..|ops| - 1], k); }
  }

  predicate PutsOnce(req: Requests, k: Key) {
    exists i :: 0 <= i < |req.puts| && req.puts[i].key == k && forall j :: 0 <= j < |req.puts| && j != i ==> req.puts[j].key != k
  }

  predicate RemovesOnce(req: Requests, k: Key) {
    exists i :: 0 <= i < |req.removes| && req.removes[i] == k && forall j :: 0 <= j < |req.removes| && j != i ==> req.removes[j] != k
  }

  /** A put and the remove of what was put meet in one place, so one undoes the other, whichever comes first. */
  lemma PutAndRemoveMeet(was: Option<AtomicState.DbElement>, put: Requests, remove: Requests, k: Key)
    requires was == None && PutsOnce(put, k) && RemovesOnce(remove, k)
    ensures AtomicState.Left(AtomicState.Left(was, PutOps(put.puts), k), RemoveOps(remove.removes), k) == None
    ensures AtomicState.Left(AtomicState.Left(was, RemoveOps(remove.removes), k), PutOps(put.puts), k) == None
  {
    var i :| 0 <= i < |put.puts| && put.puts[i].key == k && forall j :: 0 <= j < |put.puts| && j != i ==> put.puts[j].key != k;
    var j :| 0 <= j < |remove.removes| && remove.removes[j] == k && forall m :: 0 <= m < |remove.removes| && m != j ==> remove.removes[m] != k;
    NetOfOne(PutOps(put.puts), k, i);
    NetOfOne(RemoveOps(remove.removes), k, j);
    AtomicState.PutOfMember(PutOps(put.puts), k);
    assert PutOps(put.puts)[i].element.key == k;
  }

  /** So between two chains: what `p` puts for `me` and `me` removes is gone after the two calls, in either order. */
  lemma ExchangeCancels(b: Db, at: Layout, sc: Scope, spaces: Lane -> Space, me: Bytes, p: Bytes,
                        mine: seq<Bytes>, myReqs: map<Bytes, Requests>, theirs: seq<Bytes>, theirReqs: map<Bytes, Requests>, k: Key)
    requires LaidOut(at, sc) && StoresAll(b, at, sc, spaces) && PeersIn(sc, me, mine, myReqs) && PeersIn(sc, p, theirs, theirReqs)
    requires p in mine && me in theirs && me != p && ElementIn(b, at, InboundLane(me, p), k) == None
    requires PutsOnce(theirReqs[me], k) && RemovesOnce(myReqs[p], k)
    ensures var put := ApplyPeers(b, at, p, theirs, theirReqs);
            put.Some? ==> var r := ApplyPeers(put.value, at, me, mine, myReqs); r.Some? ==> ElementIn(r.value, at, InboundLane(me, p), k) == None
    ensures var removed := ApplyPeers(b, at, me, mine, myReqs);
            removed.Some? ==> var r := ApplyPeers(removed.value, at, p, theirs, theirReqs); r.Some? ==> ElementIn(r.value, at, InboundLane(me, p), k) == None
  {
    OutboundIsPeersInbound(p, me);
    PutAndRemoveMeet(None, theirReqs[me], myReqs[p], k);
    var put, removed := ApplyPeers(b, at, p, theirs, theirReqs), ApplyPeers(b, at, me, mine, myReqs);
    if put.Some? && ApplyPeers(put.value, at, me, mine, myReqs).Some? {
      ApplyStores(b, at, sc, spaces, p, theirs, theirReqs);
      ApplyLeaves(b, at, sc, spaces, p, theirs, theirReqs, me, k);
      ApplyLeaves(put.value, at, sc, AfterAll(spaces, p, theirs, theirReqs), me, mine, myReqs, p, k);
    }
    if removed.Some? && ApplyPeers(removed.value, at, p, theirs, theirReqs).Some? {
      ApplyStores(b, at, sc, spaces, me, mine, myReqs);
      ApplyLeaves(b, at, sc, spaces, me, mine, myReqs, p, k);
      ApplyLeaves(removed.value, at, sc, AfterAll(spaces, me, mine, myReqs), p, theirs, theirReqs, me, k);
    }
  }

  /** What a chain puts for another chain, under keys that are not registered, is what the other finds
      under its own inbound keys. */
  lemma PutArrives(b: Db, at: Layout, sc: Scope, spaces: Lane -> Space, me: Bytes, peers: seq<Bytes>, reqs: map<Bytes, Requests>, p: Bytes, i: nat)
    requires LaidOut(at, sc) && StoresAll(b, at, sc, spaces) && PeersIn(sc, me, peers, reqs)
    requires p in peers && p != me && i < |reqs[p].puts| && ApplyPeers(b, at, me, peers, reqs).Some?
    requires AtomicState.AtMostOnce(PutOps(reqs[p].puts))
    requires forall j :: 0 <= j < |reqs[p].puts| ==> reqs[p].puts[j].key !in spaces(OutboundLane(me, p)).values
    ensures var e := reqs[p].puts[i];
            ElementIn(ApplyPeers(b, at, me, peers, reqs).value, at, InboundLane(p, me), e.key) ==
              Some(AtomicState.DbElement(true, e.value, e.traits))
  {
    var l, ops, e := OutboundLane(me, p), PutOps(reqs[p].puts), reqs[p].puts[i];
    var b' := ApplyPeers(b, at, me, peers, reqs).value;
    OutboundIsPeersInbound(me, p);
    LanesOf(me, p);
    ApplyStores(b, at, sc, spaces, me, peers, reqs);
    AtomicState.RunGivesExpected(spaces(l), ops);
    PutIsExpected(spaces(l), ops, i);
    assert PeerIn(sc, me, p, reqs[p]);
    assert Stores(b', at, sc, l, AfterAll(spaces, me, peers, reqs)(l));
    assert ElementIn(b', at, l, e.key) == AtomicState.Lookup(AfterAll(spaces, me, peers, reqs)(l), e.key);
  }

  lemma PutIsExpected(s: Space, ops: seq<Op>, i: nat)
    requires AtomicState.AtMostOnce(ops) && i < |ops| && forall j :: 0 <= j < |ops| ==> ops[j].PutOp?
    ensures var e := ops[i].element;
            AtomicState.Expected(s, ops, e.key) == Some(AtomicState.DbElement(true, e.value, e.traits))
  {
    var e := ops[i].element;
    AtomicState.PutOfMember(ops, e.key);
    assert !AtomicState.Removes(ops, e.key);
    var put := AtomicState.PutOf(ops, e.key).value;
    var j :| 0 <= j < |ops| && ops[j] == AtomicState.PutOp(put);
    assert AtomicState.KeyOf(ops[i]) == AtomicState.KeyOf(ops[j]);
  }

  // ---- every history of Apply calls ---------------------------------------------------------

  /** The caller's batches write outside shared memory. */
  ghost predicate Foreign(at: Layout, sc: Scope, batch: Batch) {
    forall i, a :: 0 <= i < |batch| && InScope(sc, a) ==> batch[i].key != at(a)
  }

  ghost predicate ValidCall(at: Layout, sc: Scope, c: Call) {
    PeersIn(sc, c.me, c.peers, c.reqs) && Foreign(at, sc, c.batch)
  }

  ghost predicate ValidCalls(at: Layout, sc: Scope, calls: seq<Call>) {
    forall i :: 0 <= i < |calls| ==> ValidCall(at, sc, calls[i])
  }

  /** All or nothing: either every peer's requests and the caller's batches, or no change. */
  function StepCall(b: Db, at: Layout, c: Call): Db
    requires Peers(c.peers, c.reqs)
  {
    var r := ApplyPeers(b, at, c.me, c.peers, c.reqs);
    if c.fails || r.None? then b else Replay(r.value, c.batch)
  }

  ghost function RunCalls(b: Db, at: Layout, sc: Scope, calls: seq<Call>): Db
    requires ValidCalls(at, sc, calls)
  {
    if calls == [] then b else StepCall(RunCalls(b, at, sc, calls[..|calls| - 1]), at, calls[|calls| - 1])
  }

  /** The node's database before any call: nothing under the keys of shared memory. */
  ghost predicate Unused(b: Db, at: Layout, sc: Scope) {
    forall a :: InScope(sc, a) ==> at(a) !in b
  }

  lemma UnusedStores(b: Db, at: Layout, sc: Scope, l: Lane)
    requires Unused(b, at, sc) && l in sc.lanes
    ensures Stores(b, at, sc, l, AtomicState.EmptySpace)
  {
    forall k
      ensures ElementIn(b, at, l, k) == None
    {
      assert InScope(sc, ValueAt(l, k));
    }
    forall t | (l, t) in sc.names
      ensures HoldsList(b, at, l, t, [])
    {
      var d: ListData := LinkedList.Data(None, map[]);
      assert InScope(sc, HeadAt(l, t));
      forall k
        ensures NodeIn(b, at, l, t, k) == LinkedList.LookupNode(d, k)
      {
        assert InScope(sc, Address.NodeAt(l, t, k));
      }
      assert Reads(b, at, l, t, d) && LinkedList.Holds(d, []);
    }
  }

  /** A batch that writes elsewhere leaves every lane. */
  lemma ForeignStores(b: Db, at: Layout, sc: Scope, batch: Batch, l: Lane, s: Space)
    requires Foreign(at, sc, batch) && l in sc.lanes && Stores(b, at, sc, l, s)
    ensures Stores(Replay(b, batch), at, sc, l, s)
  {
    var b' := Replay(b, batch);
    forall a | InScope(sc, a)
      ensures Lookup(b', at(a)) == Lookup(b, at(a))
    {
      ReplayOutside(b, batch, at(a));
    }
    forall k
      ensures ElementIn(b', at, l, k) == AtomicState.Lookup(s, k)
    {
      assert InScope(sc, ValueAt(l, k));
      assert ElementIn(b, at, l, k) == AtomicState.Lookup(s, k);
    }
    forall t | (l, t) in sc.names
      ensures HoldsList(b', at, l, t, AtomicState.KeysOf(s.index, t))
    {
      var d :| Reads(b, at, l, t, d) && LinkedList.Holds(d, AtomicState.KeysOf(s.index, t));
      SameReads(b, b', at, sc, l, t, d);
    }
  }

  lemma SameReads(b: Db, b': Db, at: Layout, sc: Scope, l: Lane, t: Trait, d: ListData)
    requires forall a :: InScope(sc, a) ==> Lookup(b', at(a)) == Lookup(b, at(a))
    requires l in sc.lanes && (l, t) in sc.names && Reads(b, at, l, t, d)
    ensures Reads(b', at, l, t, d)
  {
    assert InScope(sc, HeadAt(l, t));
    forall k
      ensures NodeIn(b', at, l, t, k) == LinkedList.LookupNode(d, k)
    {
      assert InScope(sc, Address.NodeAt(l, t, k));
      assert NodeIn(b, at, l, t, k) == LinkedList.LookupNode(d, k);
    }
  }

  ghost predicate AgreeAll(spaces: Lane -> Space) {
    forall l :: AtomicState.Agree(spaces(l))
  }

  lemma StepCallStores(b: Db, at: Layout, sc: Scope, spaces: Lane -> Space, c: Call) returns (spaces': Lane -> Space)
    requires LaidOut(at, sc) && StoresAll(b, at, sc, spaces) && AgreeAll(spaces) && ValidCall(at, sc, c)
    ensures StoresAll(StepCall(b, at, c), at, sc, spaces') && AgreeAll(spaces')
  {
    var r := ApplyPeers(b, at, c.me, c.peers, c.reqs);
    if c.fails || r.None? {
      spaces' := spaces;
    } else {
      ApplyStores(b, at, sc, spaces, c.me, c.peers, c.reqs);
      spaces' := AfterAll(spaces, c.me, c.peers, c.reqs);
      forall l | l in sc.lanes
        ensures Stores(StepCall(b, at, c), at, sc, l, spaces'(l))
      {
        ForeignStores(r.value, at, sc, c.batch, l, spaces'(l));
      }
      AfterAllAgree(spaces, c.me, c.peers, c.reqs);
    }
  }

  lemma AfterAllAgree(spaces: Lane -> Space, me: Bytes, peers: seq<Bytes>, reqs: map<Bytes, Requests>)
    requires AgreeAll(spaces) && Peers(peers, reqs)
    ensures AgreeAll(AfterAll(spaces, me, peers, reqs))
  {
    forall l
      ensures AtomicState.Agree(AfterAll(spaces, me, peers, reqs)(l))
    {
      assert AtomicState.Agree(spaces(l));
      AtomicState.RunAgrees(spaces(l), LaneOps(l, me, peers, reqs));
    }
  }

  /** After any history of Apply calls, by any chains, failed ones included, every lane of the database
      is one space whose index and elements agree. */
  lemma {:induction false} ReachableLanes(b: Db, at: Layout, sc: Scope, calls: seq<Call>) returns (spaces: Lane -> Space)
    requires LaidOut(at, sc) && Unused(b, at, sc) && ValidCalls(at, sc, calls)
    ensures StoresAll(RunCalls(b, at, sc, calls), at, sc, spaces) && AgreeAll(spaces)
  {
    if calls == [] {
      spaces := l => AtomicState.EmptySpace;
      forall l | l in sc.lanes
        ensures Stores(b, at, sc, l, spaces(l))
      {
        UnusedStores(b, at, sc, l);
      }
    } else {
      var n := |calls| - 1;
      var before := ReachableLanes(b, at, sc, calls[..n]);
      spaces := StepCallStores(RunCalls(b, at, sc, calls[..n]), at, sc, before, calls[n]);
    }
  }

  /** The same for the hashed prefixes of the source: nothing is asked of the hash but that it does not
      collide on what is hashed for the lanes and traits in play. */
  lemma ReachableByHash(b: Db, h: Hash, sc: Scope, calls: seq<Call>) returns (spaces: Lane -> Space)
    requires Scoped(h, sc) && Unused(b, KeysBy(h), sc) && ValidCalls(KeysBy(h), sc, calls)
    ensures StoresAll(RunCalls(b, KeysBy(h), sc, calls), KeysBy(h), sc, spaces) && AgreeAll(spaces)
  {
    HashedLayout(h, sc);
    spaces := ReachableLanes(b, KeysBy(h), sc, calls);
  }

  /** So Indexed finds, for every key it reads from a trait's list, a present element with that trait. */
  lemma IndexedNeverFails(b: Db, at: Layout, sc: Scope, calls: seq<Call>, l: Lane, t: Trait, k: Key)
    requires LaidOut(at, sc) && Unused(b, at, sc) && ValidCalls(at, sc, calls) && l in sc.lanes && (l, t) in sc.names
    requires NodeIn(RunCalls(b, at, sc, calls), at, l, t, k).Some?
    ensures ElementIn(RunCalls(b, at, sc, calls), at, l, k).Some?
    ensures var e := ElementIn(RunCalls(b, at, sc, calls), at, l, k).value; e.present && t in e.traits
  {
    var b' := RunCalls(b, at, sc, calls);
    var spaces := ReachableLanes(b, at, sc, calls);
    var s := spaces(l);
    assert Stores(b', at, sc, l, s) && AtomicState.Agree(s);
    var d :| Reads(b', at, l, t, d) && LinkedList.Holds(d, AtomicState.KeysOf(s.index, t));
    LinkedList.StoredKeys(d, AtomicState.KeysOf(s.index, t), k);
    assert AtomicState.Listed(s.index, t, k) <==> AtomicState.Carries(s.values, t, k);
    assert ElementIn(b', at, l, k) == AtomicState.Lookup(s, k);
  }
}
