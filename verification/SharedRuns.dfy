/** Apply, Get and Indexed of chains/atomic/shared_memory.go from any number of threads at once. */
module SharedRuns {
  import opened Options
  import opened ByteStrings
  import opened Namespaces
  import opened VersionDb
  import opened SharedSpaces
  import opened SharedMemory
  import SharedLocks
  import AtomicState
  import LinkedList

  /*
  Each thread takes its locks as SharedLocks says and works on the database in between: an Apply does
  the operations of a peer, one at a time, once it holds the lock of that peer, reading through its
  own overlay whatever the database holds at that moment; it writes the overlay and the caller's
  batches in one go while it holds all its locks, or gives up. Keys are read one at a time, by readers and
  by the operations of Apply. The steps of all threads interleave freely.

  The result: at every moment the database is what the committed calls would have left, run one after
  the other in the order of their writes; a duplicate is reported only if the call would fail on the
  database as it is; and what a thread has read is what the database holds as long as it has its locks.
  */

  // ---- the operations of a call, one by one -------------------------------------------------

  /** An operation on a lane, under the lock at this position of the thread's list. */
  datatype Task = Task(lock: nat, lane: Lane, op: Op)

  function TasksOn(i: nat, l: Lane, ops: seq<Op>): seq<Task> {
    seq(|ops|, j requires 0 <= j < |ops| => Task(i, l, ops[j]))
  }

  function PeerTasks(i: nat, me: Bytes, p: Bytes, req: Requests): seq<Task> {
    TasksOn(i, InboundLane(me, p), RemoveOps(req.removes)) + TasksOn(i, OutboundLane(me, p), PutOps(req.puts))
  }

  function AllTasks(me: Bytes, peers: seq<Bytes>, reqs: map<Bytes, Requests>): seq<Task>
    requires forall p :: p in peers ==> p in reqs
  {
    if peers == [] then []
    else
      var n := |peers| - 1;
      AllTasks(me, peers[..n], reqs) + PeerTasks(n, me, peers[n], reqs[peers[n]])
  }

  function RunTasks(b: Db, at: Layout, ts: seq<Task>): Option<Db> {
    if ts == [] then Some(b)
    else
      var r := RunTasks(b, at, ts[..|ts| - 1]);
      if r.None? then None else StepLane(r.value, at, ts[|ts| - 1].lane, ts[|ts| - 1].op)
  }

  lemma {:induction false} RunTasksJoins(b: Db, at: Layout, ts: seq<Task>, us: seq<Task>)
    ensures RunTasks(b, at, ts + us) ==
            if RunTasks(b, at, ts).None? then None else RunTasks(RunTasks(b, at, ts).value, at, us)
  {
    if us == [] {
      assert ts + us == ts;
    } else {
      RunTasksJoins(b, at, ts, us[..|us| - 1]);
      assert (ts + us)[..|ts + us| - 1] == ts + us[..|us| - 1];
    }
  }

  lemma {:induction false} RunTasksOn(b: Db, at: Layout, i: nat, l: Lane, ops: seq<Op>)
    ensures RunTasks(b, at, TasksOn(i, l, ops)) == RunLane(b, at, l, ops)
  {
    if ops != [] {
      var n := |ops| - 1;
      RunTasksOn(b, at, i, l, ops[..n]);
      assert TasksOn(i, l, ops)[..n] == TasksOn(i, l, ops[..n]);
    }
  }

  /** One by one they make up Apply. */
  lemma {:induction false} TasksAreApply(b: Db, at: Layout, me: Bytes, peers: seq<Bytes>, reqs: map<Bytes, Requests>)
    requires forall p :: p in peers ==> p in reqs
    ensures RunTasks(b, at, AllTasks(me, peers, reqs)) == ApplyPeers(b, at, me, peers, reqs)
  {
    if peers != [] {
      var n := |peers| - 1;
      var p, before := peers[n], peers[..n];
      TasksAreApply(b, at, me, before, reqs);
      RunTasksJoins(b, at, AllTasks(me, before, reqs), PeerTasks(n, me, p, reqs[p]));
      if ApplyPeers(b, at, me, before, reqs).Some? {
        var b1 := ApplyPeers(b, at, me, before, reqs).value;
        var into, out := TasksOn(n, InboundLane(me, p), RemoveOps(reqs[p].removes)), TasksOn(n, OutboundLane(me, p), PutOps(reqs[p].puts));
        RunTasksJoins(b1, at, into, out);
        RunTasksOn(b1, at, n, InboundLane(me, p), RemoveOps(reqs[p].removes));
        if RunTasks(b1, at, into).Some? { RunTasksOn(RunTasks(b1, at, into).value, at, n, OutboundLane(me, p), PutOps(reqs[p].puts)); }
      }
    }
  }

  /** The shared ID whose lock guards the lane. */
  function LockOf(h: Hash, l: Lane): Bytes {
    SharedId(h, l.low, l.high)
  }

  function IdsOf(h: Hash, me: Bytes, peers: seq<Bytes>): seq<Bytes> {
    seq(|peers|, i requires 0 <= i < |peers| => SharedId(h, me, peers[i]))
  }

  predicate TaskOk(h: Hash, sc: Scope, ids: seq<Bytes>, t: Task) {
    t.lock < |ids| && LockOf(h, t.lane) == ids[t.lock] && OpsIn(sc, t.lane, [t.op])
  }

  lemma PeerTasksOk(h: Hash, sc: Scope, me: Bytes, p: Bytes, req: Requests, ids: seq<Bytes>, i: nat)
    requires PeerIn(sc, me, p, req) && i < |ids| && ids[i] == SharedId(h, me, p)
    ensures forall j :: 0 <= j < |PeerTasks(i, me, p, req)| ==> TaskOk(h, sc, ids, PeerTasks(i, me, p, req)[j])
  {
    SharedIdSymmetric(h, me, p);
    var into, out := RemoveOps(req.removes), PutOps(req.puts);
    forall j | 0 <= j < |PeerTasks(i, me, p, req)|
      ensures TaskOk(h, sc, ids, PeerTasks(i, me, p, req)[j])
    {
      var t := PeerTasks(i, me, p, req)[j];
      if j < |into| {
        assert t == Task(i, InboundLane(me, p), into[j]);
      } else {
        assert t == Task(i, OutboundLane(me, p), out[j - |into|]);
      }
    }
  }

  /** Every operation of a call works on a lane whose lock the call takes. */
  lemma {:induction false} TasksOk(h: Hash, sc: Scope, me: Bytes, peers: seq<Bytes>, reqs: map<Bytes, Requests>, ids: seq<Bytes>)
    requires PeersIn(sc, me, peers, reqs) && |peers| <= |ids| && forall i :: 0 <= i < |peers| ==> ids[i] == SharedId(h, me, peers[i])
    ensures forall j :: 0 <= j < |AllTasks(me, peers, reqs)| ==> TaskOk(h, sc, ids, AllTasks(me, peers, reqs)[j])
  {
    if peers != [] {
      var n := |peers| - 1;
      PeersBefore(peers, reqs);
      TasksOk(h, sc, me, peers[..n], reqs, ids);
      PeerTasksOk(h, sc, me, peers[n], reqs[peers[n]], ids, n);
    }
  }

  // ---- an operation sees and changes its own lane only --------------------------------------

  /** The two databases agree on these lanes. */
  ghost predicate SameOn(at: Layout, sc: Scope, lanes: set<Lane>, b: Db, b': Db) {
    forall a :: InScope(sc, a) && a.lane in lanes ==> Lookup(b, at(a)) == Lookup(b', at(a))
  }

  ghost predicate OnLanes(at: Layout, sc: Scope, lanes: set<Lane>, x: Bytes) {
    exists a :: InScope(sc, a) && a.lane in lanes && at(a) == x
  }

  ghost predicate OnlyOn(at: Layout, sc: Scope, lanes: set<Lane>, b: Db, b': Db) {
    forall x :: Lookup(b, x) == Lookup(b', x) || OnLanes(at, sc, lanes, x)
  }

  ghost predicate WritesOn(at: Layout, sc: Scope, lanes: set<Lane>, ws: Batch) {
    forall i :: 0 <= i < |ws| ==> OnLanes(at, sc, lanes, ws[i].key)
  }

  lemma {:induction false} ReplayLocal(b: Db, b': Db, at: Layout, sc: Scope, lanes: set<Lane>, ws: Batch)
    requires SameOn(at, sc, lanes, b, b') && WritesOn(at, sc, lanes, ws)
    ensures SameOn(at, sc, lanes, Replay(b, ws), Replay(b', ws)) && OnlyOn(at, sc, lanes, b, Replay(b, ws))
  {
    if ws != [] {
      var n := |ws| - 1;
      ReplayLocal(b, b', at, sc, lanes, ws[..n]);
      assert OnLanes(at, sc, lanes, ws[n].key);
    }
  }

  lemma ListBatchLocal(b: Db, b': Db, at: Layout, sc: Scope, lanes: set<Lane>, l: Lane, t: Trait, k: Key)
    requires SameOn(at, sc, lanes, b, b') && l in lanes && l in sc.lanes && (l, t) in sc.names
    ensures PutBatch(b, at, l, t, k) == PutBatch(b', at, l, t, k) && DeleteBatch(b, at, l, t, k) == DeleteBatch(b', at, l, t, k)
  {
    assert InScope(sc, HeadAt(l, t));
    forall x
      ensures NodeIn(b, at, l, t, x) == NodeIn(b', at, l, t, x)
    {
      assert InScope(sc, Address.NodeAt(l, t, x));
    }
  }

  lemma ListBatchOn(at: Layout, sc: Scope, lanes: set<Lane>, l: Lane, t: Trait, ws: seq<ListWrite>)
    requires l in lanes && l in sc.lanes && (l, t) in sc.names
    ensures WritesOn(at, sc, lanes, StoredAll(at, l, t, ws))
  {
    forall i | 0 <= i < |ws|
      ensures OnLanes(at, sc, lanes, StoredAll(at, l, t, ws)[i].key)
    {
      var a := if ws[i].PutNodeW? || ws[i].DeleteNodeW? then Address.NodeAt(l, t, ws[i].key) else HeadAt(l, t);
      assert InScope(sc, a) && at(a) == StoredAll(at, l, t, ws)[i].key;
    }
  }

  lemma PutBatchOn(b: Db, at: Layout, sc: Scope, lanes: set<Lane>, l: Lane, t: Trait, k: Key)
    requires l in lanes && l in sc.lanes && (l, t) in sc.names
    ensures WritesOn(at, sc, lanes, PutBatch(b, at, l, t, k)) && WritesOn(at, sc, lanes, DeleteBatch(b, at, l, t, k))
  {
    var head, cur := HeadIn(b, at, l, t), NodeIn(b, at, l, t, k);
    ListBatchOn(at, sc, lanes, l, t, LinkedList.PutWrites(cur, head, NodeUnder(b, at, l, t, head), k, ()));
    var previous := if cur.Some? then NodeUnder(b, at, l, t, cur.value.previous) else None;
    var next := if cur.Some? then NodeUnder(b, at, l, t, cur.value.next) else None;
    ListBatchOn(at, sc, lanes, l, t, LinkedList.DeleteWrites(cur, previous, next, k));
  }

  lemma {:induction false} PutTraitsLocal(b: Db, b': Db, at: Layout, sc: Scope, lanes: set<Lane>, l: Lane, traits: seq<Trait>, k: Key)
    requires SameOn(at, sc, lanes, b, b') && l in lanes && l in sc.lanes && NamesIn(sc, l, traits)
    ensures SameOn(at, sc, lanes, PutTraits(b, at, l, traits, k), PutTraits(b', at, l, traits, k))
    ensures OnlyOn(at, sc, lanes, b, PutTraits(b, at, l, traits, k))
  {
    if traits != [] {
      var n := |traits| - 1;
      PutTraitsLocal(b, b', at, sc, lanes, l, traits[..n], k);
      var b1, b1' := PutTraits(b, at, l, traits[..n], k), PutTraits(b', at, l, traits[..n], k);
      ListBatchLocal(b1, b1', at, sc, lanes, l, traits[n], k);
      PutBatchOn(b1, at, sc, lanes, l, traits[n], k);
      ReplayLocal(b1, b1', at, sc, lanes, PutBatch(b1, at, l, traits[n], k));
    }
  }

  lemma {:induction false} DeleteTraitsLocal(b: Db, b': Db, at: Layout, sc: Scope, lanes: set<Lane>, l: Lane, traits: seq<Trait>, k: Key)
    requires SameOn(at, sc, lanes, b, b') && l in lanes && l in sc.lanes && NamesIn(sc, l, traits)
    ensures SameOn(at, sc, lanes, DeleteTraits(b, at, l, traits, k), DeleteTraits(b', at, l, traits, k))
    ensures OnlyOn(at, sc, lanes, b, DeleteTraits(b, at, l, traits, k))
  {
    if traits != [] {
      var n := |traits| - 1;
      DeleteTraitsLocal(b, b', at, sc, lanes, l, traits[..n], k);
      var b1, b1' := DeleteTraits(b, at, l, traits[..n], k), DeleteTraits(b', at, l, traits[..n], k);
      ListBatchLocal(b1, b1', at, sc, lanes, l, traits[n], k);
      PutBatchOn(b1, at, sc, lanes, l, traits[n], k);
      ReplayLocal(b1, b1', at, sc, lanes, DeleteBatch(b1, at, l, traits[n], k));
    }
  }

  lemma ElementLocal(b: Db, b1: Db, b1': Db, at: Layout, sc: Scope, lanes: set<Lane>, l: Lane, k: Key, c: Option<Cell>)
    requires SameOn(at, sc, lanes, b1, b1') && OnlyOn(at, sc, lanes, b, b1) && l in lanes && l in sc.lanes
    ensures var w := Write(at(ValueAt(l, k)), c);
            SameOn(at, sc, lanes, ApplyWrite(b1, w), ApplyWrite(b1', w)) && OnlyOn(at, sc, lanes, b, ApplyWrite(b1, w))
  {
    assert InScope(sc, ValueAt(l, k));
    assert OnLanes(at, sc, lanes, at(ValueAt(l, k)));
  }

  /** On databases that agree on the lane, an operation succeeds or fails alike and leaves them agreeing,
      and it changes nothing elsewhere. */
  lemma StepLaneLocal(b: Db, b': Db, at: Layout, sc: Scope, lanes: set<Lane>, l: Lane, op: Op, s: Space)
    requires SameOn(at, sc, lanes, b, b') && l in lanes && OpsIn(sc, l, [op]) && Stores(b, at, sc, l, s)
    ensures StepLane(b, at, l, op).Some? <==> StepLane(b', at, l, op).Some?
    ensures StepLane(b, at, l, op).Some? ==>
              SameOn(at, sc, lanes, StepLane(b, at, l, op).value, StepLane(b', at, l, op).value) &&
              OnlyOn(at, sc, lanes, b, StepLane(b, at, l, op).value)
  {
    assert [op][0] == op;
    var k := AtomicState.KeyOf(op);
    assert InScope(sc, ValueAt(l, k));
    assert ElementIn(b, at, l, k) == ElementIn(b', at, l, k) == AtomicState.Lookup(s, k);
    match op
    case PutOp(e) =>
      if ElementIn(b, at, l, k).Some? {
        ElementLocal(b, b, b', at, sc, lanes, l, k, None);
      } else {
        PutTraitsLocal(b, b', at, sc, lanes, l, e.traits, k);
        ElementLocal(b, PutTraits(b, at, l, e.traits, k), PutTraits(b', at, l, e.traits, k), at, sc, lanes, l, k,
                     Some(ElementCell(AtomicState.DbElement(true, e.value, e.traits))));
      }
    case RemoveOp(_) =>
      if k in s.values {
        DeleteTraitsLocal(b, b', at, sc, lanes, l, s.values[k].traits, k);
        ElementLocal(b, DeleteTraits(b, at, l, s.values[k].traits, k), DeleteTraits(b', at, l, s.values[k].traits, k), at, sc, lanes, l, k, None);
      } else {
        ElementLocal(b, b, b', at, sc, lanes, l, k, Some(ElementCell(AtomicState.TOMBSTONE)));
      }
  }

  ghost predicate TasksIn(sc: Scope, lanes: set<Lane>, ts: seq<Task>) {
    forall j :: 0 <= j < |ts| ==> ts[j].lane in lanes && OpsIn(sc, ts[j].lane, [ts[j].op])
  }

  lemma {:induction false} RunTasksLocal(b: Db, b': Db, at: Layout, sc: Scope, lanes: set<Lane>, ts: seq<Task>, spaces: Lane -> Space)
    returns (spaces': Lane -> Space)
    requires LaidOut(at, sc) && StoresAll(b, at, sc, spaces) && SameOn(at, sc, lanes, b, b') && TasksIn(sc, lanes, ts)
    ensures RunTasks(b, at, ts).Some? <==> RunTasks(b', at, ts).Some?
    ensures RunTasks(b, at, ts).Some? ==>
              && SameOn(at, sc, lanes, RunTasks(b, at, ts).value, RunTasks(b', at, ts).value)
              && OnlyOn(at, sc, lanes, b, RunTasks(b, at, ts).value)
              && StoresAll(RunTasks(b, at, ts).value, at, sc, spaces')
  {
    spaces' := spaces;
    if ts != [] {
      var n := |ts| - 1;
      var l, op := ts[n].lane, ts[n].op;
      var mid := RunTasksLocal(b, b', at, sc, lanes, ts[..n], spaces);
      if RunTasks(b, at, ts[..n]).Some? {
        var b1, b1' := RunTasks(b, at, ts[..n]).value, RunTasks(b', at, ts[..n]).value;
        StepLaneLocal(b1, b1', at, sc, lanes, l, op, mid(l));
        RunLaneStoresAll(b1, at, sc, mid, l, [op]);
        OneOp(b1, at, l, op);
        if StepLane(b1, at, l, op).Some? { spaces' := Updated(mid, l, AtomicState.Run(mid(l), [op]).value); }
      }
    }
  }

  /** Whatever Apply changes in the database, byte key by byte key, belongs to a lane between the chain and
      one of its peers: the hashed prefixes keep every other pair of chains out of reach. */
  lemma ApplyConfined(b: Db, h: Hash, sc: Scope, spaces: Lane -> Space, me: Bytes, peers: seq<Bytes>, reqs: map<Bytes, Requests>, x: Bytes)
    requires Scoped(h, sc) && StoresAll(b, KeysBy(h), sc, spaces) && PeersIn(sc, me, peers, reqs)
    requires ApplyPeers(b, KeysBy(h), me, peers, reqs).Some?
    requires Lookup(ApplyPeers(b, KeysBy(h), me, peers, reqs).value, x) != Lookup(b, x)
    ensures exists a, p :: p in peers && InScope(sc, a) && a.lane in {InboundLane(me, p), OutboundLane(me, p)} && DbKey(h, a) == x
  {
    var ts := AllTasks(me, peers, reqs);
    HashedLayout(h, sc);
    TasksOk(h, sc, me, peers, reqs, IdsOf(h, me, peers));
    ApplyOnTasks(b, KeysBy(h), sc, spaces, me, peers, reqs, x);
    var a, j :| InScope(sc, a) && 0 <= j < |ts| && ts[j].lane == a.lane && KeysBy(h)(a) == x;
    TaskPeer(me, peers, reqs, j);
    var p :| p in peers && ts[j].lane in {InboundLane(me, p), OutboundLane(me, p)};
    assert DbKey(h, a) == x;
  }

  lemma ApplyOnTasks(b: Db, at: Layout, sc: Scope, spaces: Lane -> Space, me: Bytes, peers: seq<Bytes>, reqs: map<Bytes, Requests>, x: Bytes)
    requires LaidOut(at, sc) && StoresAll(b, at, sc, spaces) && (forall p :: p in peers ==> p in reqs)
    requires ApplyPeers(b, at, me, peers, reqs).Some? && Lookup(ApplyPeers(b, at, me, peers, reqs).value, x) != Lookup(b, x)
    requires forall j :: 0 <= j < |AllTasks(me, peers, reqs)| ==>
               OpsIn(sc, AllTasks(me, peers, reqs)[j].lane, [AllTasks(me, peers, reqs)[j].op])
    ensures exists a, j :: InScope(sc, a) && 0 <= j < |AllTasks(me, peers, reqs)| && AllTasks(me, peers, reqs)[j].lane == a.lane && at(a) == x
  {
    var ts := AllTasks(me, peers, reqs);
    var lanes := set t | t in ts :: t.lane;
    var _ := RunTasksLocal(b, b, at, sc, lanes, ts, spaces);
    TasksAreApply(b, at, me, peers, reqs);
    var a :| InScope(sc, a) && a.lane in lanes && at(a) == x;
    var j :| 0 <= j < |ts| && ts[j].lane == a.lane;
  }

  lemma {:induction false} TaskPeer(me: Bytes, peers: seq<Bytes>, reqs: map<Bytes, Requests>, j: nat)
    requires (forall p :: p in peers ==> p in reqs) && j < |AllTasks(me, peers, reqs)|
    ensures exists p :: p in peers && AllTasks(me, peers, reqs)[j].lane in {InboundLane(me, p), OutboundLane(me, p)}
  {
    var n := |peers| - 1;
    var before := AllTasks(me, peers[..n], reqs);
    if j < |before| {
      TaskPeer(me, peers[..n], reqs, j);
      var p :| p in peers[..n] && before[j].lane in {InboundLane(me, p), OutboundLane(me, p)};
      assert p in peers;
    } else {
      assert peers[n] in peers;
    }
  }

  lemma OneOp(b: Db, at: Layout, l: Lane, op: Op)
    ensures RunLane(b, at, l, [op]) == StepLane(b, at, l, op)
  {
    assert [op][..0] == [];
    assert RunLane(b, at, l, []) == Some(b);
  }

  /** An overlay that holds the result of the operations over one database holds it over any other that
      agrees on their lanes. */
  lemma OverlayMoves(b: Db, b': Db, at: Layout, sc: Scope, lanes: set<Lane>, ts: seq<Task>, mem: Patch<Bytes, Cell>, spaces: Lane -> Space, spaces': Lane -> Space)
    requires LaidOut(at, sc) && StoresAll(b, at, sc, spaces) && StoresAll(b', at, sc, spaces')
    requires SameOn(at, sc, lanes, b, b') && TasksIn(sc, lanes, ts)
    requires RunTasks(b, at, ts) == Some(Patched(b, mem)) && forall x :: x in mem ==> OnLanes(at, sc, lanes, x)
    ensures RunTasks(b', at, ts) == Some(Patched(b', mem))
  {
    var _ := RunTasksLocal(b, b', at, sc, lanes, ts, spaces);
    var _ := RunTasksLocal(b', b, at, sc, lanes, ts, spaces');
    var r, r' := RunTasks(b, at, ts).value, RunTasks(b', at, ts).value;
    forall x
      ensures Lookup(r', x) == Lookup(Patched(b', mem), x)
    {
      PatchedAt(b, mem, x);
      PatchedAt(b', mem, x);
      assert Lookup(b', x) == Lookup(r', x) || OnLanes(at, sc, lanes, x);
    }
    SameLookups(r', Patched(b', mem));
  }

  // ---- threads ------------------------------------------------------------------------------

  /** What a thread runs: an Apply, or a Get or Indexed of what `mine` receives from `peer`. */
  datatype Job = Writing(call: Call) | Reading(mine: Bytes, peer: Bytes)

  /** The hash, the lanes and traits in play, the database at the start, and one job for each thread. */
  datatype Setup = Setup(h: Hash, sc: Scope, start: Db, jobs: seq<Job>)

  datatype Phase = Working | Committed | Ended

  /** The operations done so far, the overlay they were done in, and the keys read with what was found. */
  datatype Worker = Worker(n: nat, mem: Patch<Bytes, Cell>, seen: seq<(Address, Option<Cell>)>, phase: Phase)

  /** `log` names the threads whose calls have been written, in the order of the writes. */
  datatype System = System(locks: SharedLocks.State, db: Db, workers: seq<Worker>, log: seq<nat>)

  function IdsOfJob(h: Hash, job: Job): seq<Bytes> {
    match job
    case Writing(c) => IdsOf(h, c.me, c.peers)
    case Reading(mine, peer) => [SharedId(h, peer, mine)]
  }

  function TasksOf(job: Job): seq<Task> {
    match job
    case Writing(c) => if Peers(c.peers, c.reqs) then AllTasks(c.me, c.peers, c.reqs) else []
    case Reading(_, _) => []
  }

  ghost predicate JobOk(h: Hash, sc: Scope, job: Job) {
    match job
    case Writing(c) => ValidCall(KeysBy(h), sc, c) && !c.fails
    case Reading(mine, peer) => InboundLane(mine, peer) in sc.lanes
  }

  ghost predicate SetupOk(su: Setup) {
    Scoped(su.h, su.sc) && Unused(su.start, KeysBy(su.h), su.sc) && forall t :: 0 <= t < |su.jobs| ==> JobOk(su.h, su.sc, su.jobs[t])
  }

  datatype Move =
    | LockMove(step: SharedLocks.Step)
    | Operate(t: nat, mem: Patch<Bytes, Cell>)  // the next operation, which leaves this overlay
    | Duplicate(t: nat)                         // the next operation is refused as a duplicate
    | Commit(t: nat)                            // WriteAll
    | ReadKey(t: nat, a: Address)
    | Return(t: nat)                            // with an error, or with what was read

  /** The thread is in its body: not waiting for a lock, and no release has begun. */
  predicate InBody(s: System, t: nat) {
    t < |s.workers| && t < |s.locks.threads| && s.workers[t].phase == Working && s.locks.threads[t].pc == SharedLocks.Acquiring
  }

  /** The next operation is due, and its lock is held. */
  predicate Due(su: Setup, s: System, t: nat) {
    InBody(s, t) && t < |su.jobs| && s.workers[t].n < |TasksOf(su.jobs[t])| &&
    TasksOf(su.jobs[t])[s.workers[t].n].lock < |s.locks.threads[t].held|
  }

  /** What the next operation makes of the database as this thread sees it. */
  function Outcome(su: Setup, s: System, t: nat): Option<Db>
    requires Due(su, s, t)
  {
    var task := TasksOf(su.jobs[t])[s.workers[t].n];
    StepLane(Patched(s.db, s.workers[t].mem), KeysBy(su.h), task.lane, task.op)
  }

  /** The locks of a thread move as in SharedLocks. The next lock is taken when the work under the
      locks held is done, and releasing begins when the body is over. */
  predicate LockAllowed(su: Setup, s: System, step: SharedLocks.Step) {
    && SharedLocks.TableOk(s.locks.table) && SharedLocks.Enabled(s.locks, step)
    && step.t < |s.workers| && step.t < |su.jobs|
    && var w, held := s.workers[step.t], |s.locks.threads[step.t].held|;
       && (step.Make? ==> w.phase == Working && forall j :: w.n <= j < |TasksOf(su.jobs[step.t])| ==> TasksOf(su.jobs[step.t])[j].lock >= held)
       && (step.Finish? ==> w.phase != Working)
  }

  ghost predicate Possible(su: Setup, s: System, m: Move) {
    match m
    case LockMove(step) => LockAllowed(su, s, step)
    case Operate(t, mem) =>
      Due(su, s, t) && Outcome(su, s, t) == Some(Patched(s.db, mem)) &&
      forall x :: x in mem ==> x in s.workers[t].mem || OnLanes(KeysBy(su.h), su.sc, {TasksOf(su.jobs[t])[s.workers[t].n].lane}, x)
    case Duplicate(t) => Due(su, s, t) && Outcome(su, s, t) == None
    case Commit(t) =>
      InBody(s, t) && t < |su.jobs| && su.jobs[t].Writing? &&
      s.workers[t].n == |TasksOf(su.jobs[t])| && |s.locks.threads[t].held| == |s.locks.threads[t].ids|
    case ReadKey(t, a) => InBody(s, t) && t < |su.jobs| && InScope(su.sc, a) && MayRead(su, s, t, a)
    case Return(t) => InBody(s, t) && CanRelease(s.locks.threads[t])
  }

  /** A reader reads its inbound lane, a writer the lane of its next operation, under the lock. */
  predicate MayRead(su: Setup, s: System, t: nat, a: Address)
    requires InBody(s, t) && t < |su.jobs|
  {
    match su.jobs[t]
    case Reading(mine, peer) => |s.locks.threads[t].held| == 1 && a.lane == InboundLane(mine, peer)
    case Writing(_) => Due(su, s, t) && a.lane == TasksOf(su.jobs[t])[s.workers[t].n].lane
  }

  /** Nothing can fail, and nothing is released, before the first lock is taken. */
  predicate CanRelease(th: SharedLocks.Thread) {
    |th.held| > 0 || th.ids == []
  }

  function SetWorker(s: System, t: nat, w: Worker): System
    requires t < |s.workers|
  {
    s.(workers := s.workers[t := w])
  }

  ghost function Moved(su: Setup, s: System, m: Move): System
    requires Possible(su, s, m)
  {
    match m
    case LockMove(step) => s.(locks := SharedLocks.Apply(s.locks, step))
    case Operate(t, mem) => SetWorker(s, t, s.workers[t].(n := s.workers[t].n + 1, mem := mem))
    case Duplicate(t) => SetWorker(s, t, s.workers[t].(phase := Ended))
    case Commit(t) =>
      SetWorker(s, t, s.workers[t].(phase := Committed))
      .(db := Replay(Patched(s.db, s.workers[t].mem), su.jobs[t].call.batch), log := s.log + [t])
    case ReadKey(t, a) =>
      SetWorker(s, t, s.workers[t].(seen := s.workers[t].seen + [(a, Lookup(s.db, KeysBy(su.h)(a)))]))
    case Return(t) => SetWorker(s, t, s.workers[t].(phase := Ended))
  }

  const NewWorker := Worker(0, map[], [], Working)

  ghost predicate Begin(su: Setup, s: System) {
    && SharedLocks.Start(s.locks) && s.db == su.start && s.log == []
    && |s.workers| == |su.jobs| && |s.locks.threads| == |su.jobs|
    && forall t :: 0 <= t < |su.jobs| ==> s.workers[t] == NewWorker && s.locks.threads[t].ids == IdsOfJob(su.h, su.jobs[t])
  }

  ghost predicate IsRun(su: Setup, run: seq<System>, moves: seq<Move>) {
    && |run| == |moves| + 1 && Begin(su, run[0])
    && forall i :: 0 <= i < |moves| ==> Possible(su, run[i], moves[i]) && run[i + 1] == Moved(su, run[i], moves[i])
  }

  // ---- invariant ----------------------------------------------------------------------------

  ghost function LanesOfTasks(ts: seq<Task>): set<Lane> {
    set t | t in ts :: t.lane
  }

  ghost function LanesOfReads(seen: seq<(Address, Option<Cell>)>): set<Lane> {
    set r | r in seen :: r.0.lane
  }

  /** The lanes that a thread has touched so far, all under locks it holds. */
  ghost function Touched(su: Setup, t: nat, w: Worker): set<Lane>
    requires t < |su.jobs| && w.n <= |TasksOf(su.jobs[t])|
  {
    LanesOfTasks(TasksOf(su.jobs[t])[..w.n]) + LanesOfReads(w.seen)
  }

  /** A thread at work: its overlay over the present database is the result of its operations on the
      present database, and what it has read is still there. */
  ghost predicate WorkOk(su: Setup, th: SharedLocks.Thread, db: Db, t: nat, w: Worker)
    requires t < |su.jobs|
  {
    var at, ts := KeysBy(su.h), TasksOf(su.jobs[t]);
    && w.n <= |ts| && RunTasks(db, at, ts[..w.n]) == Some(Patched(db, w.mem))
    && (forall x :: x in w.mem ==> OnLanes(at, su.sc, Touched(su, t, w), x))
    && (forall l :: l in Touched(su, t, w) ==> SharedLocks.Inside(th, LockOf(su.h, l)))
    && forall i :: 0 <= i < |w.seen| ==> StillThere(su, db, Touched(su, t, w), w.seen[i])
  }

  predicate StillThere(su: Setup, db: Db, lanes: set<Lane>, read: (Address, Option<Cell>)) {
    InScope(su.sc, read.0) && read.0.lane in lanes && Lookup(db, KeysBy(su.h)(read.0)) == read.1
  }

  ghost predicate WorkerOk(su: Setup, th: SharedLocks.Thread, db: Db, t: nat, w: Worker)
    requires t < |su.jobs|
  {
    && th.ids == IdsOfJob(su.h, su.jobs[t])
    && (w.phase == Working ==> (th.pc.Acquiring? || th.pc.Waiting?) && WorkOk(su, th, db, t, w))
    && (w.phase != Working ==> !th.pc.Waiting? && (th.pc.Acquiring? ==> CanRelease(th)))
  }

  ghost predicate LogOk(su: Setup, s: System) {
    && (forall i :: 0 <= i < |s.log| ==> s.log[i] < |su.jobs| && su.jobs[s.log[i]].Writing?)
    && (forall i, j :: 0 <= i < j < |s.log| ==> s.log[i] != s.log[j])
    && (forall t :: 0 <= t < |s.workers| ==> (t in s.log <==> s.workers[t].phase == Committed))
  }

  /** The calls written so far, in order. */
  function CallsOf(su: Setup, log: seq<nat>): seq<Call>
    requires forall i :: 0 <= i < |log| ==> log[i] < |su.jobs| && su.jobs[log[i]].Writing?
  {
    seq(|log|, i requires 0 <= i < |log| => su.jobs[log[i]].call)
  }

  ghost predicate DbOk(su: Setup, s: System)
    requires LogOk(su, s)
  {
    ValidCalls(KeysBy(su.h), su.sc, CallsOf(su, s.log)) &&
    s.db == RunCalls(su.start, KeysBy(su.h), su.sc, CallsOf(su, s.log))
  }

  ghost predicate Inv(su: Setup, s: System) {
    && SharedLocks.Inv(s.locks) && |s.workers| == |su.jobs| && |s.locks.threads| == |su.jobs|
    && LogOk(su, s) && DbOk(su, s)
    && forall t :: 0 <= t < |su.jobs| ==> WorkerOk(su, s.locks.threads[t], s.db, t, s.workers[t])
  }

  // ---- lock moves ----

  lemma LockKeeps(su: Setup, s: System, step: SharedLocks.Step)
    requires SetupOk(su) && Inv(su, s) && LockAllowed(su, s, step)
    ensures Inv(su, Moved(su, s, LockMove(step)))
  {
    var s' := Moved(su, s, LockMove(step));
    SharedLocks.InvKept(s.locks, step);
    forall t | 0 <= t < |su.jobs|
      ensures WorkerOk(su, s'.locks.threads[t], s'.db, t, s'.workers[t])
    {
      assert WorkerOk(su, s.locks.threads[t], s.db, t, s.workers[t]);
      if t == step.t && s.workers[t].phase == Working { StillInside(s.locks, step); }
    }
  }

  lemma StillInside(s: SharedLocks.State, step: SharedLocks.Step)
    requires SharedLocks.Inv(s) && SharedLocks.Enabled(s, step) && !step.Finish?
    requires s.threads[step.t].pc.Acquiring? || s.threads[step.t].pc.Waiting?
    ensures var th, th' := s.threads[step.t], SharedLocks.Apply(s, step).threads[step.t];
            && (th'.pc.Acquiring? || th'.pc.Waiting?)
            && forall id :: SharedLocks.Inside(th, id) ==> SharedLocks.Inside(th', id)
  {
    var th := s.threads[step.t];
    assert SharedLocks.ThreadOk(s.table, th);
    if step.Lock? { assert th.ids[..|th.held| + 1] == th.ids[..|th.held|] + [th.ids[|th.held|]]; }
  }

  // ---- the work of one thread ----

  lemma OthersKept(su: Setup, s: System, t: nat, w: Worker)
    requires Inv(su, s) && t < |su.jobs| && WorkerOk(su, s.locks.threads[t], s.db, t, w)
    requires w.phase == Committed <==> s.workers[t].phase == Committed
    ensures Inv(su, SetWorker(s, t, w))
  {
    var s' := SetWorker(s, t, w);
    forall u | 0 <= u < |su.jobs|
      ensures WorkerOk(su, s'.locks.threads[u], s'.db, u, s'.workers[u])
    {
      assert WorkerOk(su, s.locks.threads[u], s.db, u, s.workers[u]);
    }
  }

  lemma TaskOfJob(su: Setup, t: nat, n: nat)
    requires SetupOk(su) && t < |su.jobs| && n < |TasksOf(su.jobs[t])|
    ensures TaskOk(su.h, su.sc, IdsOfJob(su.h, su.jobs[t]), TasksOf(su.jobs[t])[n])
  {
    assert JobOk(su.h, su.sc, su.jobs[t]);
    var c := su.jobs[t].call;
    TasksOk(su.h, su.sc, c.me, c.peers, c.reqs, IdsOf(su.h, c.me, c.peers));
  }

  lemma OperateKeeps(su: Setup, s: System, t: nat, mem: Patch<Bytes, Cell>)
    requires SetupOk(su) && Inv(su, s) && Possible(su, s, Operate(t, mem))
    ensures Inv(su, Moved(su, s, Operate(t, mem)))
  {
    var w, th := s.workers[t], s.locks.threads[t];
    assert WorkerOk(su, th, s.db, t, w) && SharedLocks.ThreadOk(s.locks.table, th);
    OneMoreTask(s.db, KeysBy(su.h), TasksOf(su.jobs[t]), w.n);
    NowInside(su, th, t, w.n);
    OperateWork(su, th, s.db, t, w, mem);
    OthersKept(su, s, t, w.(n := w.n + 1, mem := mem));
  }

  lemma OperateWork(su: Setup, th: SharedLocks.Thread, db: Db, t: nat, w: Worker, mem: Patch<Bytes, Cell>)
    requires t < |su.jobs| && w.n < |TasksOf(su.jobs[t])| && WorkOk(su, th, db, t, w)
    requires var task := TasksOf(su.jobs[t])[w.n];
             && SharedLocks.Inside(th, LockOf(su.h, task.lane))
             && (forall x :: x in mem ==> x in w.mem || OnLanes(KeysBy(su.h), su.sc, {task.lane}, x))
    requires RunTasks(db, KeysBy(su.h), TasksOf(su.jobs[t])[..w.n + 1]) == Some(Patched(db, mem))
    ensures WorkOk(su, th, db, t, w.(n := w.n + 1, mem := mem))
  {
    var ts, w' := TasksOf(su.jobs[t]), w.(n := w.n + 1, mem := mem);
    TouchedGrows(su, t, w, mem);
    Spread(KeysBy(su.h), su.sc, Touched(su, t, w), Touched(su, t, w'), w.mem.Keys);
    Spread(KeysBy(su.h), su.sc, {ts[w.n].lane}, Touched(su, t, w'), mem.Keys - w.mem.Keys);
    forall i | 0 <= i < |w.seen|
      ensures StillThere(su, db, Touched(su, t, w'), w.seen[i])
    {
      assert StillThere(su, db, Touched(su, t, w), w.seen[i]);
    }
  }

  lemma OneMoreTask(b: Db, at: Layout, ts: seq<Task>, n: nat)
    requires n < |ts| && RunTasks(b, at, ts[..n]).Some?
    ensures RunTasks(b, at, ts[..n + 1]) == StepLane(RunTasks(b, at, ts[..n]).value, at, ts[n].lane, ts[n].op)
  {
    assert ts[..n + 1][..n] == ts[..n];
  }

  lemma NowInside(su: Setup, th: SharedLocks.Thread, t: nat, n: nat)
    requires SetupOk(su) && t < |su.jobs| && th.ids == IdsOfJob(su.h, su.jobs[t]) && |th.held| <= |th.ids|
    requires n < |TasksOf(su.jobs[t])| && TasksOf(su.jobs[t])[n].lock < |th.held|
    ensures SharedLocks.Inside(th, LockOf(su.h, TasksOf(su.jobs[t])[n].lane))
  {
    TaskOfJob(su, t, n);
    assert th.ids[TasksOf(su.jobs[t])[n].lock] in th.ids[..|th.held|];
  }

  lemma TouchedGrows(su: Setup, t: nat, w: Worker, mem: Patch<Bytes, Cell>)
    requires t < |su.jobs| && w.n < |TasksOf(su.jobs[t])|
    ensures Touched(su, t, w.(n := w.n + 1, mem := mem)) == Touched(su, t, w) + {TasksOf(su.jobs[t])[w.n].lane}
  {
    var ts := TasksOf(su.jobs[t]);
    assert ts[..w.n + 1] == ts[..w.n] + [ts[w.n]];
  }

  lemma Spread(at: Layout, sc: Scope, lanes: set<Lane>, lanes': set<Lane>, xs: set<Bytes>)
    requires lanes <= lanes' && forall x :: x in xs ==> OnLanes(at, sc, lanes, x)
    ensures forall x :: x in xs ==> OnLanes(at, sc, lanes', x)
  {
  }

  lemma ReadKeeps(su: Setup, s: System, t: nat, a: Address)
    requires SetupOk(su) && Inv(su, s) && Possible(su, s, ReadKey(t, a))
    ensures Inv(su, Moved(su, s, ReadKey(t, a)))
  {
    var w, th := s.workers[t], s.locks.threads[t];
    assert WorkerOk(su, th, s.db, t, w) && SharedLocks.ThreadOk(s.locks.table, th);
    if su.jobs[t].Writing? {
      NowInside(su, th, t, w.n);
    } else {
      SharedIdSymmetric(su.h, su.jobs[t].mine, su.jobs[t].peer);
      assert th.ids[..1] == [LockOf(su.h, a.lane)];
    }
    ReadWork(su, th, s.db, t, w, a);
    OthersKept(su, s, t, w.(seen := w.seen + [(a, Lookup(s.db, KeysBy(su.h)(a)))]));
  }

  lemma ReadWork(su: Setup, th: SharedLocks.Thread, db: Db, t: nat, w: Worker, a: Address)
    requires t < |su.jobs| && WorkOk(su, th, db, t, w) && InScope(su.sc, a) && SharedLocks.Inside(th, LockOf(su.h, a.lane))
    ensures WorkOk(su, th, db, t, w.(seen := w.seen + [(a, Lookup(db, KeysBy(su.h)(a)))]))
  {
    var read := (a, Lookup(db, KeysBy(su.h)(a)));
    var w' := w.(seen := w.seen + [read]);
    assert LanesOfReads(w'.seen) == LanesOfReads(w.seen) + {a.lane} by {
      assert read in w'.seen;
    }
    Spread(KeysBy(su.h), su.sc, Touched(su, t, w), Touched(su, t, w'), w.mem.Keys);
    forall i | 0 <= i < |w'.seen|
      ensures StillThere(su, db, Touched(su, t, w'), w'.seen[i])
    {
      if i < |w.seen| { assert StillThere(su, db, Touched(su, t, w), w.seen[i]); }
    }
  }

  // ---- the write ----

  /** Lanes under locks that another thread holds are not those of the thread that writes. */
  lemma LanesApart(su: Setup, s: System, u: nat, t: nat, l: Lane)
    requires SharedLocks.Inv(s.locks) && |s.workers| == |s.locks.threads| == |su.jobs| && t < |su.jobs| && u < |su.jobs| && t != u
    requires WorkOk(su, s.locks.threads[t], s.db, t, s.workers[t]) && WorkOk(su, s.locks.threads[u], s.db, u, s.workers[u])
    requires l in Touched(su, t, s.workers[t])
    ensures l !in Touched(su, u, s.workers[u])
  {
    if l in Touched(su, u, s.workers[u]) { SharedLocks.OneInside(s.locks, t, u, LockOf(su.h, l)); }
  }

  lemma CommitSameOn(su: Setup, s: System, u: nat, t: nat)
    requires SetupOk(su) && Inv(su, s) && Possible(su, s, Commit(u)) && t < |su.jobs| && t != u && s.workers[t].phase == Working
    requires WorkOk(su, s.locks.threads[t], s.db, t, s.workers[t]) && WorkOk(su, s.locks.threads[u], s.db, u, s.workers[u])
    ensures SameOn(KeysBy(su.h), su.sc, Touched(su, t, s.workers[t]), s.db, Moved(su, s, Commit(u)).db)
  {
    var at, w, batch := KeysBy(su.h), s.workers[u], su.jobs[u].call.batch;
    HashedLayout(su.h, su.sc);
    assert JobOk(su.h, su.sc, su.jobs[u]);
    forall a | InScope(su.sc, a) && a.lane in Touched(su, t, s.workers[t])
      ensures Lookup(s.db, at(a)) == Lookup(Moved(su, s, Commit(u)).db, at(a))
    {
      LanesApart(su, s, u, t, a.lane);
      assert at(a) !in w.mem;
      PatchedAt(s.db, w.mem, at(a));
      ReplayOutside(Patched(s.db, w.mem), batch, at(a));
    }
  }

  /** The write is what the call would do as a whole, now. */
  lemma CommitIsCall(su: Setup, s: System, u: nat)
    requires u < |su.jobs| && JobOk(su.h, su.sc, su.jobs[u]) && Possible(su, s, Commit(u)) && WorkOk(su, s.locks.threads[u], s.db, u, s.workers[u])
    ensures ValidCall(KeysBy(su.h), su.sc, su.jobs[u].call)
    ensures Moved(su, s, Commit(u)).db == StepCall(s.db, KeysBy(su.h), su.jobs[u].call)
    ensures ApplyPeers(s.db, KeysBy(su.h), su.jobs[u].call.me, su.jobs[u].call.peers, su.jobs[u].call.reqs).Some?
  {
    var ts := TasksOf(su.jobs[u]);
    assert ts[..|ts|] == ts;
    WholeCall(s.db, KeysBy(su.h), su.jobs[u].call, s.workers[u].mem);
  }

  lemma WholeCall(b: Db, at: Layout, c: Call, mem: Patch<Bytes, Cell>)
    requires Peers(c.peers, c.reqs) && !c.fails && RunTasks(b, at, AllTasks(c.me, c.peers, c.reqs)) == Some(Patched(b, mem))
    ensures ApplyPeers(b, at, c.me, c.peers, c.reqs).Some? && StepCall(b, at, c) == Replay(Patched(b, mem), c.batch)
  {
    TasksAreApply(b, at, c.me, c.peers, c.reqs);
  }

  lemma TasksTouched(su: Setup, t: nat, w: Worker)
    requires SetupOk(su) && t < |su.jobs| && w.n <= |TasksOf(su.jobs[t])|
    ensures TasksIn(su.sc, Touched(su, t, w), TasksOf(su.jobs[t])[..w.n])
  {
    var ts := TasksOf(su.jobs[t]);
    forall j | 0 <= j < w.n
      ensures ts[..w.n][j].lane in Touched(su, t, w) && OpsIn(su.sc, ts[..w.n][j].lane, [ts[..w.n][j].op])
    {
      TaskOfJob(su, t, j);
      assert ts[..w.n][j] in ts[..w.n];
    }
  }

  /** A thread at work does not notice the write of another. */
  lemma CommitUnnoticed(su: Setup, s: System, u: nat, t: nat, spaces: Lane -> Space, spaces': Lane -> Space)
    requires SetupOk(su) && Inv(su, s) && Possible(su, s, Commit(u)) && t < |su.jobs| && t != u && s.workers[t].phase == Working
    requires WorkOk(su, s.locks.threads[t], s.db, t, s.workers[t]) && WorkOk(su, s.locks.threads[u], s.db, u, s.workers[u])
    requires StoresAll(s.db, KeysBy(su.h), su.sc, spaces) && StoresAll(Moved(su, s, Commit(u)).db, KeysBy(su.h), su.sc, spaces')
    ensures WorkOk(su, s.locks.threads[t], Moved(su, s, Commit(u)).db, t, s.workers[t])
  {
    var w, ts := s.workers[t], TasksOf(su.jobs[t]);
    HashedLayout(su.h, su.sc);
    CommitSameOn(su, s, u, t);
    TasksTouched(su, t, w);
    OverlayMoves(s.db, Moved(su, s, Commit(u)).db, KeysBy(su.h), su.sc, Touched(su, t, w), ts[..w.n], w.mem, spaces, spaces');
  }

  lemma CommitLog(su: Setup, s: System, u: nat)
    requires SetupOk(su) && Inv(su, s) && Possible(su, s, Commit(u)) && WorkOk(su, s.locks.threads[u], s.db, u, s.workers[u])
    ensures var s' := Moved(su, s, Commit(u)); LogOk(su, s') && DbOk(su, s')
  {
    assert JobOk(su.h, su.sc, su.jobs[u]);
    CommitIsCall(su, s, u);
    LogGrows(su, s, u);
    CallsGrow(su, s.log, u);
  }

  lemma LogGrows(su: Setup, s: System, u: nat)
    requires |s.workers| == |su.jobs| && LogOk(su, s) && Possible(su, s, Commit(u))
    ensures LogOk(su, Moved(su, s, Commit(u)))
  {
  }

  lemma CallsGrow(su: Setup, log: seq<nat>, u: nat)
    requires forall i :: 0 <= i < |log| ==> log[i] < |su.jobs| && su.jobs[log[i]].Writing?
    requires u < |su.jobs| && su.jobs[u].Writing? && ValidCall(KeysBy(su.h), su.sc, su.jobs[u].call)
    requires ValidCalls(KeysBy(su.h), su.sc, CallsOf(su, log))
    ensures ValidCalls(KeysBy(su.h), su.sc, CallsOf(su, log + [u]))
    ensures RunCalls(su.start, KeysBy(su.h), su.sc, CallsOf(su, log + [u])) ==
            StepCall(RunCalls(su.start, KeysBy(su.h), su.sc, CallsOf(su, log)), KeysBy(su.h), su.jobs[u].call)
  {
    var calls := CallsOf(su, log + [u]);
    assert calls == CallsOf(su, log) + [su.jobs[u].call];
    assert calls[..|log|] == CallsOf(su, log);
  }

  lemma CommitKeeps(su: Setup, s: System, u: nat)
    requires SetupOk(su) && Inv(su, s) && Possible(su, s, Commit(u))
    ensures Inv(su, Moved(su, s, Commit(u)))
  {
    var s' := Moved(su, s, Commit(u));
    assert WorkerOk(su, s.locks.threads[u], s.db, u, s.workers[u]);
    CommitLog(su, s, u);
    var spaces := ReachableByHash(su.start, su.h, su.sc, CallsOf(su, s.log));
    var spaces' := ReachableByHash(su.start, su.h, su.sc, CallsOf(su, s'.log));
    forall t | 0 <= t < |su.jobs|
      ensures WorkerOk(su, s'.locks.threads[t], s'.db, t, s'.workers[t])
    {
      assert WorkerOk(su, s.locks.threads[t], s.db, t, s.workers[t]);
      if t != u && s.workers[t].phase == Working { CommitUnnoticed(su, s, u, t, spaces, spaces'); }
    }
  }

  lemma InvKept(su: Setup, s: System, m: Move)
    requires SetupOk(su) && Inv(su, s) && Possible(su, s, m)
    ensures Inv(su, Moved(su, s, m))
  {
    match m
    case LockMove(step) => LockKeeps(su, s, step);
    case Operate(t, mem) => OperateKeeps(su, s, t, mem);
    case Duplicate(t) =>
      assert WorkerOk(su, s.locks.threads[t], s.db, t, s.workers[t]);
      OthersKept(su, s, t, s.workers[t].(phase := Ended));
    case Commit(t) => CommitKeeps(su, s, t);
    case ReadKey(t, a) => ReadKeeps(su, s, t, a);
    case Return(t) =>
      assert WorkerOk(su, s.locks.threads[t], s.db, t, s.workers[t]);
      OthersKept(su, s, t, s.workers[t].(phase := Ended));
  }

  lemma BeginOk(su: Setup, s: System)
    requires SetupOk(su) && Begin(su, s)
    ensures Inv(su, s)
  {
    SharedLocks.StartInv(s.locks);
    BeginDb(su, s);
    forall t | 0 <= t < |su.jobs|
      ensures WorkerOk(su, s.locks.threads[t], s.db, t, s.workers[t])
    {
      NewWork(su, s.locks.threads[t], s.db, t);
    }
  }

  lemma BeginDb(su: Setup, s: System)
    requires SetupOk(su) && Begin(su, s)
    ensures LogOk(su, s) && DbOk(su, s)
  {
  }

  lemma NewWork(su: Setup, th: SharedLocks.Thread, db: Db, t: nat)
    requires t < |su.jobs|
    ensures WorkOk(su, th, db, t, NewWorker)
  {
    var ts := TasksOf(su.jobs[t]);
    assert ts[..0] == [];
    assert Patched(db, NewWorker.mem) == db;
  }

  // ---- results over whole runs --------------------------------------------------------------

  lemma {:induction false} Reachable(su: Setup, run: seq<System>, moves: seq<Move>, i: nat)
    requires SetupOk(su) && IsRun(su, run, moves) && i < |run|
    ensures Inv(su, run[i])
  {
    if i == 0 {
      BeginOk(su, run[0]);
    } else {
      Reachable(su, run, moves, i - 1);
      InvKept(su, run[i - 1], moves[i - 1]);
    }
  }

  /** However the threads interleave, at every moment the database is what the committed calls leave when
      they run one after the other, in the order of their writes, each committed thread once. */
  lemma Serializable(su: Setup, run: seq<System>, moves: seq<Move>, i: nat)
    requires SetupOk(su) && IsRun(su, run, moves) && i < |run|
    ensures LogOk(su, run[i])
    ensures ValidCalls(KeysBy(su.h), su.sc, CallsOf(su, run[i].log))
    ensures run[i].db == RunCalls(su.start, KeysBy(su.h), su.sc, CallsOf(su, run[i].log))
  {
    Reachable(su, run, moves, i);
  }

  /** So at every moment each lane is one space whose index and elements agree. */
  lemma LanesAlwaysAgree(su: Setup, run: seq<System>, moves: seq<Move>, i: nat) returns (spaces: Lane -> Space)
    requires SetupOk(su) && IsRun(su, run, moves) && i < |run|
    ensures StoresAll(run[i].db, KeysBy(su.h), su.sc, spaces) && AgreeAll(spaces)
  {
    Serializable(su, run, moves, i);
    spaces := ReachableByHash(su.start, su.h, su.sc, CallsOf(su, run[i].log));
  }

  /** The moment a call is written, all of it would have succeeded on the database as it was. */
  lemma CommitSucceeds(su: Setup, run: seq<System>, moves: seq<Move>, i: nat)
    requires SetupOk(su) && IsRun(su, run, moves) && i < |moves| && moves[i].Commit?
    ensures moves[i].t < |su.jobs| && su.jobs[moves[i].t].Writing?
    ensures var c := su.jobs[moves[i].t].call;
            Peers(c.peers, c.reqs) && ApplyPeers(run[i].db, KeysBy(su.h), c.me, c.peers, c.reqs).Some? &&
            run[i + 1].db == StepCall(run[i].db, KeysBy(su.h), c)
  {
    Reachable(su, run, moves, i);
    var t := moves[i].t;
    assert JobOk(su.h, su.sc, su.jobs[t]);
    assert WorkerOk(su, run[i].locks.threads[t], run[i].db, t, run[i].workers[t]);
    CommitIsCall(su, run[i], t);
  }

  /** And a call that reports a duplicate would fail on the database as it is at that moment. */
  lemma DuplicateIsReal(su: Setup, run: seq<System>, moves: seq<Move>, i: nat)
    requires SetupOk(su) && IsRun(su, run, moves) && i < |moves| && moves[i].Duplicate?
    ensures moves[i].t < |su.jobs| && su.jobs[moves[i].t].Writing?
    ensures var c := su.jobs[moves[i].t].call;
            Peers(c.peers, c.reqs) && ApplyPeers(run[i].db, KeysBy(su.h), c.me, c.peers, c.reqs) == None
  {
    Reachable(su, run, moves, i);
    var s, t := run[i], moves[i].t;
    assert JobOk(su.h, su.sc, su.jobs[t]);
    assert WorkerOk(su, s.locks.threads[t], s.db, t, s.workers[t]);
    var c := su.jobs[t].call;
    StuckTask(s.db, KeysBy(su.h), TasksOf(su.jobs[t]), s.workers[t].n);
    TasksAreApply(s.db, KeysBy(su.h), c.me, c.peers, c.reqs);
  }

  lemma StuckTask(b: Db, at: Layout, ts: seq<Task>, n: nat)
    requires n < |ts| && RunTasks(b, at, ts[..n]).Some? && StepLane(RunTasks(b, at, ts[..n]).value, at, ts[n].lane, ts[n].op) == None
    ensures RunTasks(b, at, ts) == None
  {
    assert ts[..n + 1][..n] == ts[..n] && ts == ts[..n + 1] + ts[n + 1..];
    RunTasksJoins(b, at, ts[..n + 1], ts[n + 1..]);
  }

  /** What a thread has read of its lanes so far, at different moments, is all in the database at this one
      moment: a Get or Indexed sees one state, and so does an operation of Apply that reads at several
      moments before it is done. */
  lemma ReadsAreOneSnapshot(su: Setup, run: seq<System>, moves: seq<Move>, i: nat, t: nat, j: nat)
    requires SetupOk(su) && IsRun(su, run, moves) && i < |run| && t < |su.jobs| && t < |run[i].workers|
    requires run[i].workers[t].phase == Working && j < |run[i].workers[t].seen|
    ensures var (a, c) := run[i].workers[t].seen[j]; Lookup(run[i].db, KeysBy(su.h)(a)) == c
  {
    Reachable(su, run, moves, i);
    assert WorkerOk(su, run[i].locks.threads[t], run[i].db, t, run[i].workers[t]);
  }

  // ---- no deadlock --------------------------------------------------------------------------

  /** Any view that differs in some keys can be laid over the database by writing those keys. */
  lemma OverlayExists(b: Db, mem: Patch<Bytes, Cell>, b': Db) returns (mem': Patch<Bytes, Cell>)
    ensures Patched(b, mem') == b'
    ensures forall x :: x in mem' ==> x in mem || Lookup(Patched(b, mem), x) != Lookup(b', x)
  {
    var view := Patched(b, mem);
    mem' := mem + map x | x in view.Keys + b'.Keys && Lookup(view, x) != Lookup(b', x) :: Lookup(b', x);
    forall x
      ensures Lookup(Patched(b, mem'), x) == Lookup(b', x)
    {
      PatchedAt(b, mem, x);
      PatchedAt(b, mem', x);
    }
    SameLookups(Patched(b, mem'), b');
  }

  lemma DueMove(su: Setup, s: System, t: nat) returns (m: Move)
    requires SetupOk(su) && Inv(su, s) && Due(su, s, t)
    ensures Possible(su, s, m) && !m.Return?
  {
    var r, w, task := Outcome(su, s, t), s.workers[t], TasksOf(su.jobs[t])[s.workers[t].n];
    if r == None {
      return Duplicate(t);
    }
    assert WorkerOk(su, s.locks.threads[t], s.db, t, w);
    OutcomeOnLane(su, s, t);
    var mem := OverlayExists(s.db, w.mem, r.value);
    m := Operate(t, mem);
  }

  lemma OutcomeOnLane(su: Setup, s: System, t: nat)
    requires SetupOk(su) && Inv(su, s) && Due(su, s, t) && Outcome(su, s, t).Some?
    requires WorkOk(su, s.locks.threads[t], s.db, t, s.workers[t])
    ensures OnlyOn(KeysBy(su.h), su.sc, {TasksOf(su.jobs[t])[s.workers[t].n].lane}, Patched(s.db, s.workers[t].mem), Outcome(su, s, t).value)
  {
    var at, w, ts := KeysBy(su.h), s.workers[t], TasksOf(su.jobs[t]);
    var l, view := ts[w.n].lane, Patched(s.db, w.mem);
    HashedLayout(su.h, su.sc);
    var spaces := ReachableByHash(su.start, su.h, su.sc, CallsOf(su, s.log));
    forall j | 0 <= j < w.n
      ensures ts[..w.n][j].lane in su.sc.lanes && OpsIn(su.sc, ts[..w.n][j].lane, [ts[..w.n][j].op])
    {
      TaskOfJob(su, t, j);
    }
    var after := RunTasksLocal(s.db, s.db, at, su.sc, su.sc.lanes, ts[..w.n], spaces);
    TaskOfJob(su, t, w.n);
    StepLaneLocal(view, view, at, su.sc, {l}, l, ts[w.n].op, after(l));
  }

  predicate InOrder(ts: seq<Task>, n: nat) {
    (forall i :: 0 <= i < |ts| ==> ts[i].lock < n) && forall i, j :: 0 <= i < j < |ts| ==> ts[i].lock <= ts[j].lock
  }

  lemma InOrderMore(ts: seq<Task>, us: seq<Task>, n: nat)
    requires InOrder(ts, n) && forall i :: 0 <= i < |us| ==> us[i].lock == n
    ensures InOrder(ts + us, n + 1)
  {
    forall i, j | 0 <= i < j < |ts + us|
      ensures (ts + us)[i].lock <= (ts + us)[j].lock
    {
      if j < |ts| { assert (ts + us)[i] == ts[i] && (ts + us)[j] == ts[j]; }
    }
  }

  lemma PeerTasksLock(i: nat, me: Bytes, p: Bytes, req: Requests)
    ensures forall j :: 0 <= j < |PeerTasks(i, me, p, req)| ==> PeerTasks(i, me, p, req)[j].lock == i
  {
  }

  /** The operations of a call go through its locks in order. */
  lemma {:induction false} LocksAscend(me: Bytes, peers: seq<Bytes>, reqs: map<Bytes, Requests>)
    requires forall p :: p in peers ==> p in reqs
    ensures InOrder(AllTasks(me, peers, reqs), |peers|)
  {
    if peers != [] {
      var n := |peers| - 1;
      LocksAscend(me, peers[..n], reqs);
      PeerTasksLock(n, me, peers[n], reqs[peers[n]]);
      InOrderMore(AllTasks(me, peers[..n], reqs), PeerTasks(n, me, peers[n], reqs[peers[n]]), n);
    }
  }

  lemma JobLocksAscend(h: Hash, job: Job)
    ensures InOrder(TasksOf(job), |IdsOfJob(h, job)|)
  {
    if job.Writing? && Peers(job.call.peers, job.call.reqs) { LocksAscend(job.call.me, job.call.peers, job.call.reqs); }
  }

  lemma MakeAllowed(su: Setup, s: System, t: nat)
    requires SharedLocks.TableOk(s.locks.table) && InBody(s, t) && t < |su.jobs| && !Due(su, s, t)
    requires |s.locks.threads[t].held| < |s.locks.threads[t].ids| && InOrder(TasksOf(su.jobs[t]), |s.locks.threads[t].ids|)
    ensures LockAllowed(su, s, SharedLocks.Make(t))
  {
  }

  /** A thread in its body can always go on: with its next lock, its next operation, its write, or, if it
      is a reader, its return. */
  lemma BodyMove(su: Setup, s: System, t: nat) returns (m: Move)
    requires SetupOk(su) && Inv(su, s) && InBody(s, t)
    ensures Possible(su, s, m) && (m.Return? ==> m.t == t && su.jobs[t].Reading?)
  {
    var w, th, ts := s.workers[t], s.locks.threads[t], TasksOf(su.jobs[t]);
    assert WorkerOk(su, th, s.db, t, w) && SharedLocks.ThreadOk(s.locks.table, th);
    JobLocksAscend(su.h, su.jobs[t]);
    if Due(su, s, t) {
      m := DueMove(su, s, t);
    } else if |th.held| < |th.ids| {
      MakeAllowed(su, s, t);
      m := LockMove(SharedLocks.Make(t));
    } else if su.jobs[t].Writing? {
      m := Commit(t);
    } else {
      m := Return(t);
    }
  }

  /** While some thread has not finished, some thread can move, without any failure to help it. */
  lemma NoDeadlock(su: Setup, run: seq<System>, moves: seq<Move>, i: nat, t: nat) returns (m: Move)
    requires SetupOk(su) && IsRun(su, run, moves) && i < |run| && t < |su.jobs| && t < |run[i].locks.threads|
    requires !SharedLocks.Finished(run[i].locks.threads[t])
    ensures Possible(su, run[i], m) && (m.Return? ==> m.t < |su.jobs| && su.jobs[m.t].Reading?)
  {
    Reachable(su, run, moves, i);
    var s := run[i];
    var step := SharedLocks.FindStep(s.locks, t);
    var u := step.t;
    assert WorkerOk(su, s.locks.threads[u], s.db, u, s.workers[u]);
    if InBody(s, u) {
      m := BodyMove(su, s, u);
    } else if step.Make? {
      m := LockMove(SharedLocks.Finish(u));
    } else {
      m := LockMove(step);
    }
  }

  // ---- every run ends -----------------------------------------------------------------------

  /** What a thread still has to do besides its locks, less what it has read. */
  function Left(job: Job, w: Worker): int {
    |TasksOf(job)| - w.n - |w.seen| + if w.phase == Working then 1 else 0
  }

  function TotalLeft(jobs: seq<Job>, ws: seq<Worker>): int
    requires |jobs| == |ws|
  {
    if ws == [] then 0 else Left(jobs[0], ws[0]) + TotalLeft(jobs[1..], ws[1..])
  }

  /** How many keys all the threads have read. */
  function Reads(ws: seq<Worker>): nat {
    if ws == [] then 0 else |ws[0].seen| + Reads(ws[1..])
  }

  lemma {:induction false} TotalLeftChange(jobs: seq<Job>, ws: seq<Worker>, t: nat, w: Worker)
    requires |jobs| == |ws| && t < |ws|
    ensures TotalLeft(jobs, ws[t := w]) == TotalLeft(jobs, ws) - Left(jobs[t], ws[t]) + Left(jobs[t], w)
  {
    if t == 0 {
      assert ws[0 := w][1..] == ws[1..];
    } else {
      assert ws[t := w][1..] == ws[1..][t - 1 := w];
      TotalLeftChange(jobs[1..], ws[1..], t - 1, w);
    }
  }

  lemma {:induction false} TotalLeftBound(jobs: seq<Job>, ws: seq<Worker>)
    requires |jobs| == |ws| && forall t :: 0 <= t < |ws| ==> Left(jobs[t], ws[t]) + |ws[t].seen| >= 0
    ensures TotalLeft(jobs, ws) + Reads(ws) >= 0
  {
    if ws != [] {
      TotalLeftBound(jobs[1..], ws[1..]);
      assert Left(jobs[0], ws[0]) + |ws[0].seen| >= 0;
    }
  }

  /** An upper bound on the moves still to come, when no more keys are read than have been. */
  function Effort(su: Setup, s: System): int
    requires |s.workers| == |su.jobs|
  {
    SharedLocks.TotalWork(s.locks.threads) + TotalLeft(su.jobs, s.workers)
  }

  lemma MoveTakesEffort(su: Setup, s: System, m: Move)
    requires Inv(su, s) && Possible(su, s, m)
    ensures |Moved(su, s, m).workers| == |su.jobs| && Effort(su, Moved(su, s, m)) < Effort(su, s)
  {
    if m.LockMove? {
      SharedLocks.StepDoesWork(s.locks, m.step);
    } else {
      TotalLeftChange(su.jobs, s.workers, m.t, Moved(su, s, m).workers[m.t]);
    }
  }

  /** No worker does more operations than its call has. */
  ghost predicate NoneOver(su: Setup, s: System) {
    |s.workers| == |su.jobs| && forall t :: 0 <= t < |su.jobs| ==> s.workers[t].n <= |TasksOf(su.jobs[t])|
  }

  lemma NoneOverKept(su: Setup, s: System, m: Move)
    requires NoneOver(su, s) && Possible(su, s, m)
    ensures NoneOver(su, Moved(su, s, m))
  {
  }

  lemma EffortBound(su: Setup, s: System)
    requires Inv(su, s) && NoneOver(su, s)
    ensures Effort(su, s) + Reads(s.workers) >= 0
  {
    assert forall t :: 0 <= t < |s.locks.threads| ==> SharedLocks.ThreadOk(s.locks.table, s.locks.threads[t]);
    SharedLocks.TotalWorkNonNegative(s.locks.threads);
    TotalLeftBound(su.jobs, s.workers);
  }

  /** Every run ends: besides reading keys it makes no more moves than the effort it starts with. */
  lemma {:induction false} RunsEnd(su: Setup, run: seq<System>, moves: seq<Move>, i: nat)
    requires SetupOk(su) && IsRun(su, run, moves) && i < |run|
    ensures NoneOver(su, run[i]) && i + Effort(su, run[i]) <= Effort(su, run[0])
    ensures i <= Effort(su, run[0]) + Reads(run[i].workers)
  {
    if i > 0 {
      RunsEnd(su, run, moves, i - 1);
      MoveInRun(su, run, moves, i - 1);
    }
    Reachable(su, run, moves, i);
    EffortBound(su, run[i]);
  }

  lemma MoveInRun(su: Setup, run: seq<System>, moves: seq<Move>, i: nat)
    requires SetupOk(su) && IsRun(su, run, moves) && i < |moves| && NoneOver(su, run[i])
    ensures NoneOver(su, run[i + 1]) && Effort(su, run[i + 1]) < Effort(su, run[i])
  {
    Reachable(su, run, moves, i);
    MoveTakesEffort(su, run[i], moves[i]);
    NoneOverKept(su, run[i], moves[i]);
  }

  lemma {:induction false} ReadsBound(ws: seq<Worker>, r: nat)
    requires forall t :: 0 <= t < |ws| ==> |ws[t].seen| <= r
    ensures Reads(ws) <= |ws| * r
  {
    if ws != [] {
      ReadsBound(ws[1..], r);
      assert |ws| * r == (|ws| - 1) * r + r;
    }
  }

  /** So with the reads of each thread bounded there is a bound on all runs of the same calls. */
  lemma BoundedReads(su: Setup, run: seq<System>, moves: seq<Move>, r: nat)
    requires SetupOk(su) && IsRun(su, run, moves)
    requires forall t :: 0 <= t < |run[|moves|].workers| ==> |run[|moves|].workers[t].seen| <= r
    ensures |run[0].workers| == |su.jobs| && |moves| <= Effort(su, run[0]) + |su.jobs| * r
  {
    RunsEnd(su, run, moves, |moves|);
    ReadsBound(run[|moves|].workers, r);
  }

  /** How a thread that ended without writing came to end. */
  ghost predicate GaveUp(moves: seq<Move>, i: nat, t: nat) {
    exists j :: 0 <= j < i && j < |moves| && (moves[j] == Duplicate(t) || moves[j] == Return(t))
  }

  lemma {:induction false} EndedGaveUp(su: Setup, run: seq<System>, moves: seq<Move>, i: nat, t: nat)
    requires IsRun(su, run, moves) && i < |run| && t < |su.jobs|
    ensures |run[i].workers| == |su.jobs| && (run[i].workers[t].phase == Ended ==> GaveUp(moves, i, t))
  {
    if i > 0 {
      EndedGaveUp(su, run, moves, i - 1, t);
      EndsBy(su, run[i - 1], moves[i - 1], t);
      if GaveUp(moves, i - 1, t) {
        var j :| 0 <= j < i - 1 && j < |moves| && (moves[j] == Duplicate(t) || moves[j] == Return(t));
      }
    }
  }

  lemma EndsBy(su: Setup, s: System, m: Move, t: nat)
    requires |s.workers| == |su.jobs| && t < |su.jobs| && Possible(su, s, m)
    ensures |Moved(su, s, m).workers| == |su.jobs|
    ensures Moved(su, s, m).workers[t].phase == Ended ==> s.workers[t].phase == Ended || m == Duplicate(t) || m == Return(t)
  {
  }

  /** A run that cannot go on has come to its end: every thread has released all its locks, every call has
      been written, reported as a duplicate or given up, and the database is what the written ones leave. */
  lemma StuckIsFinished(su: Setup, run: seq<System>, moves: seq<Move>, i: nat, t: nat)
    requires SetupOk(su) && IsRun(su, run, moves) && i < |run| && t < |su.jobs|
    requires forall m :: !Possible(su, run[i], m)
    ensures |run[i].locks.threads| == |su.jobs| && SharedLocks.Finished(run[i].locks.threads[t])
    ensures (t in run[i].log && su.jobs[t].Writing?) || GaveUp(moves, i, t)
    ensures LogOk(su, run[i]) && run[i].db == RunCalls(su.start, KeysBy(su.h), su.sc, CallsOf(su, run[i].log))
  {
    Reachable(su, run, moves, i);
    var s := run[i];
    if !SharedLocks.Finished(s.locks.threads[t]) { var m := NoDeadlock(su, run, moves, i, t); }
    assert WorkerOk(su, s.locks.threads[t], s.db, t, s.workers[t]);
    if s.workers[t].phase == Ended {
      EndedGaveUp(su, run, moves, i, t);
    } else {
      var j :| 0 <= j < |s.log| && s.log[j] == t;
    }
  }
}
