/** The batch write of database/rpcdb: the client drops overwritten writes from the back and sends
chunks of bounded size, the server gathers the chunks of a batch and writes them at the last one. */
module RemoteBatch {
  import opened Options
  import opened ByteStrings
  import opened VersionDb
  import opened Faults

  type Change = Write<Bytes, Bytes>
  type Store = map<Bytes, Bytes>

  // ---- what a list of writes means ----------------------------------------------------------

  /** The last write to `k`, if any: a value, or None for a delete. */
  function LastWrite(ws: seq<Change>, k: Bytes): Option<Option<Bytes>> {
    if ws == [] then None
    else if ws[|ws| - 1].key == k then Some(ws[|ws| - 1].value)
    else LastWrite(ws[..|ws| - 1], k)
  }

  /** Applying the writes in order leaves under each key what was last written there. */
  lemma {:induction false} ReplayAt(f: Store, ws: seq<Change>, k: Bytes)
    ensures Lookup(Replay(f, ws), k) == match LastWrite(ws, k) case Some(v) => v case None => Lookup(f, k)
  {
    if ws != [] { ReplayAt(f, ws[..|ws| - 1], k); }
  }

  ghost predicate SameMeaning(a: seq<Change>, b: seq<Change>) {
    forall k :: LastWrite(a, k) == LastWrite(b, k)
  }

  lemma SameMeaningReplays(f: Store, a: seq<Change>, b: seq<Change>)
    requires SameMeaning(a, b)
    ensures Replay(f, a) == Replay(f, b)
  {
    forall k
      ensures Lookup(Replay(f, a), k) == Lookup(Replay(f, b), k)
    {
      ReplayAt(f, a, k);
      ReplayAt(f, b, k);
    }
    SameLookups(Replay(f, a), Replay(f, b));
  }

  lemma {:induction false} LastWriteJoin(a: seq<Change>, b: seq<Change>, k: Bytes)
    ensures LastWrite(a + b, k) == if LastWrite(b, k).Some? then LastWrite(b, k) else LastWrite(a, k)
  {
    if b == [] {
      assert a + b == a;
    } else {
      LastWriteJoin(a, b[..|b| - 1], k);
      assert (a + b)[..|a + b| - 1] == a + b[..|b| - 1];
    }
  }

  /** A first write to a key may go anywhere among the others. */
  lemma InsertFresh(a: seq<Change>, b: seq<Change>, w: Change, k: Bytes)
    requires LastWrite(a + b, w.key).None?
    ensures LastWrite(a + [w] + b, k) == if k == w.key then Some(w.value) else LastWrite(a + b, k)
  {
    LastWriteJoin(a, b, w.key);
    LastWriteJoin(a, b, k);
    LastWriteJoin(a + [w], b, k);
    assert (a + [w])[..|a|] == a;
  }

  // ---- chunks -------------------------------------------------------------------------------

  const MAX_BATCH_SIZE := 128 * 1024
  const BASE_ELEMENT_SIZE := 8

  datatype Put = Put(key: Bytes, value: Bytes)
  datatype Chunk = Chunk(puts: seq<Put>, deletes: seq<Bytes>)

  function PutWrites(puts: seq<Put>): (ws: seq<Change>)
    ensures |ws| == |puts| && forall i :: 0 <= i < |puts| ==> ws[i] == Write(puts[i].key, Some(puts[i].value))
  {
    seq(|puts|, i requires 0 <= i < |puts| => Write(puts[i].key, Some(puts[i].value)))
  }

  function DeleteWrites(deletes: seq<Bytes>): (ws: seq<Change>)
    ensures |ws| == |deletes| && forall i :: 0 <= i < |deletes| ==> ws[i] == Write(deletes[i], None)
  {
    seq(|deletes|, i requires 0 <= i < |deletes| => Write(deletes[i], None))
  }

  /** The server appends the puts of a chunk before its deletes. */
  function ChunkWrites(c: Chunk): seq<Change> {
    PutWrites(c.puts) + DeleteWrites(c.deletes)
  }

  function AllWrites(chunks: seq<Chunk>): seq<Change> {
    if chunks == [] then [] else AllWrites(chunks[..|chunks| - 1]) + ChunkWrites(chunks[|chunks| - 1])
  }

  function AddTo(c: Chunk, w: Change): Chunk {
    match w.value
    case Some(v) => c.(puts := c.puts + [Put(w.key, v)])
    case None => c.(deletes := c.deletes + [w.key])
  }

  lemma AddToWrites(c: Chunk, w: Change)
    ensures var p, d := PutWrites(c.puts), DeleteWrites(c.deletes);
            ChunkWrites(AddTo(c, w)) == if w.value.Some? then p + [w] + d else p + d + [w]
  {
    var p, d := PutWrites(c.puts), DeleteWrites(c.deletes);
    match w.value {
      case Some(v) => assert PutWrites(c.puts + [Put(w.key, v)]) == p + [w];
      case None =>
        assert DeleteWrites(c.deletes + [w.key]) == d + [w];
        assert p + (d + [w]) == p + d + [w];
    }
  }

  lemma AddToMeans(c: Chunk, w: Change, k: Bytes)
    requires LastWrite(ChunkWrites(c), w.key).None?
    ensures LastWrite(ChunkWrites(AddTo(c, w)), k) == if k == w.key then Some(w.value) else LastWrite(ChunkWrites(c), k)
  {
    var p, d := PutWrites(c.puts), DeleteWrites(c.deletes);
    AddToWrites(c, w);
    if w.value.Some? {
      InsertFresh(p, d, w, k);
    } else {
      assert p + d + [] == p + d && p + d + [w] + [] == p + d + [w];
      InsertFresh(p + d, [], w, k);
    }
  }

  function ElementSize(w: Change): nat {
    BASE_ELEMENT_SIZE + |w.key| + (if w.value.Some? then |w.value.value| else 0)
  }

  function Total(ws: seq<Change>): nat {
    if ws == [] then 0 else Total(ws[..|ws| - 1]) + ElementSize(ws[|ws| - 1])
  }

  function ChunkSize(c: Chunk): nat {
    Total(ChunkWrites(c))
  }

  function Count(c: Chunk): nat {
    |c.puts| + |c.deletes|
  }

  /** Only a single element may exceed the limit. */
  predicate Fits(c: Chunk) {
    ChunkSize(c) <= MAX_BATCH_SIZE || Count(c) == 1
  }

  lemma {:induction false} TotalJoin(a: seq<Change>, b: seq<Change>)
    ensures Total(a + b) == Total(a) + Total(b)
  {
    if b == [] {
      assert a + b == a;
    } else {
      TotalJoin(a, b[..|b| - 1]);
      assert (a + b)[..|a + b| - 1] == a + b[..|b| - 1];
    }
  }

  lemma TotalInsert(a: seq<Change>, b: seq<Change>, w: Change)
    ensures Total(a + [w] + b) == Total(a + b) + ElementSize(w)
  {
    TotalJoin(a, b);
    TotalJoin(a + [w], b);
    assert (a + [w])[..|a|] == a;
  }

  lemma AddToSize(c: Chunk, w: Change)
    ensures ChunkSize(AddTo(c, w)) == ChunkSize(c) + ElementSize(w) && Count(AddTo(c, w)) == Count(c) + 1
  {
    var p, d := PutWrites(c.puts), DeleteWrites(c.deletes);
    AddToWrites(c, w);
    if w.value.Some? {
      TotalInsert(p, d, w);
    } else {
      assert p + d + [] == p + d && p + d + [w] + [] == p + d + [w];
      TotalInsert(p + d, [], w);
    }
  }

  // ---- the client's loop, as a function of what is left -------------------------------------

  const EmptyChunk := Chunk([], [])

  /** After sending `sent` and gathering `cur`, the writes `later` (the tail of the list) are covered,
      each key once. */
  ghost predicate Covers(sent: seq<Chunk>, cur: Chunk, later: seq<Change>) {
    SameMeaning(AllWrites(sent) + ChunkWrites(cur), later)
  }

  lemma FirstWrite(w: Change, later: seq<Change>, k: Bytes)
    ensures LastWrite([w] + later, k) ==
              if LastWrite(later, k).Some? then LastWrite(later, k) else if w.key == k then Some(w.value) else None
  {
    LastWriteJoin([w], later, k);
    assert [w][..0] == [];
  }

  /** A write that a later one overrides adds nothing. */
  lemma CoversOverwritten(sent: seq<Chunk>, cur: Chunk, later: seq<Change>, w: Change)
    requires Covers(sent, cur, later) && LastWrite(later, w.key).Some?
    ensures Covers(sent, cur, [w] + later)
  {
    forall k
      ensures LastWrite([w] + later, k) == LastWrite(later, k)
    {
      FirstWrite(w, later, k);
    }
  }

  lemma CoversAdded(sent: seq<Chunk>, cur: Chunk, later: seq<Change>, w: Change)
    requires Covers(sent, cur, later) && LastWrite(later, w.key).None?
    ensures Covers(sent, AddTo(cur, w), [w] + later)
  {
    forall k
      ensures LastWrite(AllWrites(sent) + ChunkWrites(AddTo(cur, w)), k) == LastWrite([w] + later, k)
    {
      CoversAddedAt(AllWrites(sent), cur, later, w, k);
    }
  }

  lemma CoversAddedAt(before: seq<Change>, cur: Chunk, later: seq<Change>, w: Change, k: Bytes)
    requires LastWrite(later, w.key).None?
    requires LastWrite(before + ChunkWrites(cur), w.key) == LastWrite(later, w.key)
    requires LastWrite(before + ChunkWrites(cur), k) == LastWrite(later, k)
    ensures LastWrite(before + ChunkWrites(AddTo(cur, w)), k) == LastWrite([w] + later, k)
  {
    FirstWrite(w, later, k);
    LastWriteJoin(before, ChunkWrites(cur), w.key);
    LastWriteJoin(before, ChunkWrites(cur), k);
    LastWriteJoin(before, ChunkWrites(AddTo(cur, w)), k);
    AddToMeans(cur, w, k);
  }

  lemma CoversSent(sent: seq<Chunk>, cur: Chunk, later: seq<Change>)
    requires Covers(sent, cur, later)
    ensures Covers(sent + [cur], EmptyChunk, later)
  {
    assert (sent + [cur])[..|sent|] == sent;
    assert AllWrites(sent + [cur]) + ChunkWrites(EmptyChunk) == AllWrites(sent) + ChunkWrites(cur);
  }

  // ---- in place -----------------------------------------------------------------------------

  /** The server's two loops over a chunk; an append may fail. */
  method Append(batch0: seq<Change>, chunk: Chunk, sound: bool) returns (ok: bool, batch: seq<Change>)
    ensures ok ==> batch == batch0 + ChunkWrites(chunk)
    ensures sound ==> ok
  {
    ok, batch := false, batch0;
    ghost var p, d := PutWrites(chunk.puts), DeleteWrites(chunk.deletes);
    for i := 0 to |chunk.puts|
      invariant batch == batch0 + p[..i]
    {
      var fault := Fault(sound);
      if fault {
        return;
      }
      batch := batch + [Write(chunk.puts[i].key, Some(chunk.puts[i].value))];
    }
    for i := 0 to |chunk.deletes|
      invariant batch == batch0 + p + d[..i]
    {
      var fault := Fault(sound);
      if fault {
        return;
      }
      batch := batch + [Write(chunk.deletes[i], None)];
    }
    ok := true;
  }

  class Server {
    const sound: bool // no access to the database fails
    var db: Store
    var batches: map<int, seq<Change>>

    constructor (db: Store, sound: bool)
      ensures this.db == db && batches == map[] && this.sound == sound
    {
      this.db, batches, this.sound := db, map[], sound;
    }

    ghost function Gathered(id: int): seq<Change>
      reads this
    {
      if id in batches then batches[id] else []
    }

    /** A failed append frees the batch; a failed write leaves the database as it was. */
    method WriteBatch(id: int, chunk: Chunk, continues: bool) returns (ok: bool)
      modifies this
      ensures ok && continues ==>
                db == old(db) && batches == old(batches)[id := old(Gathered(id)) + ChunkWrites(chunk)]
      ensures ok && !continues ==>
                db == Replay(old(db), old(Gathered(id)) + ChunkWrites(chunk)) && batches == old(batches) - {id}
      ensures !ok ==> db == old(db) && batches == old(batches) - {id}
      ensures sound ==> ok
    {
      var batch := if id in batches then batches[id] else [];
      batches := batches[id := batch];
      ok, batch := Append(batch, chunk, sound);
      if !ok {
        batches := batches - {id};
        return;
      }
      if continues {
        batches := batches[id := batch];
        return true;
      }
      batches := batches - {id};
      var fault := Fault(sound);
      if fault {
        return false;
      }
      db := Replay(db, batch);
      return true;
    }
  }

  class Client {
    const server: Server
    const connected: bool // no call is lost
    var batchIndex: int

    constructor (server: Server, connected: bool)
      ensures this.server == server && batchIndex == 0 && this.connected == connected
    {
      this.server, batchIndex, this.connected := server, 0, connected;
    }

    /** The server knows no batch of this client that is yet to come. */
    ghost predicate Valid()
      reads this, server
    {
      forall id :: id in server.batches ==> id <= batchIndex
    }

    /** batch.Write. A call may also fail on the way, before or after the server has done its part. */
    method Write(ws: seq<Change>) returns (ok: bool, ghost sent: seq<Chunk>)
      requires Valid()
      modifies this, server
      ensures Valid() && batchIndex == old(batchIndex) + 1
      ensures forall c :: c in sent ==> Fits(c)
      ensures ok ==> SameMeaning(AllWrites(sent), ws)
      ensures ok ==> server.db == Replay(old(server.db), ws) && server.batches == old(server.batches)
      ensures !ok ==> server.db == old(server.db) || server.db == Replay(old(server.db), ws)
      ensures server.batches - {batchIndex} == old(server.batches)
      ensures connected && server.sound ==> ok
    {
      batchIndex := batchIndex + 1;
      var id := batchIndex;
      var cur;
      ok, cur, sent := TakeAll(id, ws);
      if ok {
        SameMeaningReplays(server.db, AllWrites(sent) + ChunkWrites(cur), ws);
        ok := Send(id, cur, false);
        AllWritesOneMore(sent, cur);
        sent := sent + [cur];
      }
      OldBatches(server.batches, old(server.batches), id);
    }

    /** The loop over the writes, last one first: chunks that are full go out, the rest stays. */
    method TakeAll(id: int, ws: seq<Change>) returns (ok: bool, cur: Chunk, ghost sent: seq<Chunk>)
      requires id !in server.batches
      modifies server
      ensures server.db == old(server.db) && server.batches - {id} == old(server.batches)
      ensures ok ==> server.Gathered(id) == AllWrites(sent) && Covers(sent, cur, ws) && Fits(cur)
      ensures forall c :: c in sent ==> Fits(c)
      ensures connected && server.sound ==> ok
    {
      ok, cur, sent := true, EmptyChunk, [];
      var currentSize, keySet := 0, {};
      var i := |ws|;
      while i > 0
        invariant 0 <= i <= |ws| && ok && server.db == old(server.db)
        invariant server.batches - {id} == old(server.batches)
        invariant Progress(id, sent, cur, currentSize, ws[i..])
        invariant forall k :: k in keySet <==> LastWrite(ws[i..], k).Some?
      {
        i := i - 1;
        OneEarlier(ws, i);
        if ws[i].key in keySet {
          CoversOverwritten(sent, cur, ws[i + 1..], ws[i]);
          continue;
        }
        keySet := keySet + {ws[i].key};
        ok, cur, currentSize, sent := Take(id, ws[i], sent, cur, currentSize, ws[i + 1..]);
        if !ok {
          return;
        }
      }
      assert ws[0..] == ws;
    }

    ghost predicate Progress(id: int, sent: seq<Chunk>, cur: Chunk, currentSize: nat, later: seq<Change>)
      reads server
    {
      && server.Gathered(id) == AllWrites(sent) && Covers(sent, cur, later)
      && currentSize == ChunkSize(cur) && Fits(cur) && (forall c :: c in sent ==> Fits(c))
    }

    /** One write that nothing later overrides; a chunk that would get too large goes out first. */
    method Take(id: int, w: Change, ghost sent0: seq<Chunk>, cur0: Chunk, currentSize0: nat, ghost later: seq<Change>)
      returns (ok: bool, cur: Chunk, currentSize: nat, ghost sent: seq<Chunk>)
      requires Progress(id, sent0, cur0, currentSize0, later) && LastWrite(later, w.key).None?
      modifies server
      ensures server.db == old(server.db) && server.batches - {id} == old(server.batches) - {id}
      ensures ok ==> Progress(id, sent, cur, currentSize, [w] + later)
      ensures forall c :: c in sent ==> Fits(c)
      ensures connected && server.sound ==> ok
    {
      ok, cur, currentSize, sent := true, cur0, currentSize0, sent0;
      if currentSize + ElementSize(w) > MAX_BATCH_SIZE {
        ok := Send(id, cur, true);
        if !ok {
          return;
        }
        CoversSent(sent, cur, later);
        AllWritesOneMore(sent, cur);
        sent, cur, currentSize := sent + [cur], EmptyChunk, 0;
      }
      CoversAdded(sent, cur, later, w);
      AddToSize(cur, w);
      cur, currentSize := AddTo(cur, w), currentSize + ElementSize(w);
    }

    /** One remote call: the request or the reply may get lost. */
    method Send(id: int, chunk: Chunk, continues: bool) returns (ok: bool)
      modifies server
      ensures ok && continues ==>
                server.db == old(server.db) && server.Gathered(id) == old(server.Gathered(id)) + ChunkWrites(chunk)
      ensures ok && !continues ==>
                server.db == Replay(old(server.db), old(server.Gathered(id)) + ChunkWrites(chunk)) && id !in server.batches
      ensures !ok ==>
                || server.db == old(server.db)
                || (!continues && server.db == Replay(old(server.db), old(server.Gathered(id)) + ChunkWrites(chunk)))
      ensures server.batches - {id} == old(server.batches) - {id}
      ensures connected && server.sound ==> ok
    {
      var lost := Fault(connected);
      if lost {
        return false;
      }
      ok := server.WriteBatch(id, chunk, continues);
      lost := Fault(connected);
      ok := ok && !lost;
    }
  }

  lemma OneEarlier(ws: seq<Change>, i: nat)
    requires i < |ws|
    ensures ws[i..] == [ws[i]] + ws[i + 1..]
    ensures forall k :: LastWrite(ws[i..], k).Some? <==> k == ws[i].key || LastWrite(ws[i + 1..], k).Some?
  {
    var now, later := ws[i..], ws[i + 1..];
    assert now == [ws[i]] + later;
    forall k
      ensures LastWrite(now, k).Some? <==> k == ws[i].key || LastWrite(later, k).Some?
    {
      FirstWrite(ws[i], later, k);
    }
  }

  lemma OldBatches(now: map<int, seq<Change>>, before: map<int, seq<Change>>, id: int)
    requires now - {id} == before && forall x :: x in before ==> x < id
    ensures forall x :: x in now ==> x <= id
    ensures id !in now ==> now == before
  {
    assert forall x :: x in now && x != id ==> x in now - {id};
  }

  lemma AllWritesOneMore(sent: seq<Chunk>, cur: Chunk)
    ensures AllWrites(sent + [cur]) == AllWrites(sent) + ChunkWrites(cur)
  {
    assert (sent + [cur])[..|sent|] == sent;
  }

  // ---- several batches at once --------------------------------------------------------------

  /** A chunk as it reaches the server, whichever batch it belongs to. */
  datatype Arrival = Arrival(id: int, chunk: Chunk, last: bool)

  datatype ServerState = ServerState(db: Store, batches: map<int, seq<Change>>)

  function GatheredIn(s: ServerState, id: int): seq<Change> {
    if id in s.batches then s.batches[id] else []
  }

  function Arrive(s: ServerState, a: Arrival): ServerState {
    var batch := GatheredIn(s, a.id) + ChunkWrites(a.chunk);
    if a.last then ServerState(Replay(s.db, batch), s.batches - {a.id}) else s.(batches := s.batches[a.id := batch])
  }

  function RunServer(db: Store, trace: seq<Arrival>): ServerState {
    if trace == [] then ServerState(db, map[]) else Arrive(RunServer(db, trace[..|trace| - 1]), trace[|trace| - 1])
  }

  /** The chunks of one batch, in order of arrival. */
  function ChunksOf(trace: seq<Arrival>, id: int): seq<Chunk> {
    if trace == [] then []
    else
      var a := trace[|trace| - 1];
      ChunksOf(trace[..|trace| - 1], id) + if a.id == id then [a.chunk] else []
  }

  /** Nothing of a batch arrives after its last chunk. */
  predicate EndOnce(trace: seq<Arrival>) {
    forall i, j :: 0 <= i < j < |trace| && trace[i].id == trace[j].id ==> !trace[i].last
  }

  predicate Ended(trace: seq<Arrival>, id: int) {
    exists i :: 0 <= i < |trace| && trace[i].id == id && trace[i].last
  }

  lemma {:induction false} GatheredChunks(db: Store, trace: seq<Arrival>, id: int)
    requires EndOnce(trace)
    ensures !Ended(trace, id) ==> GatheredIn(RunServer(db, trace), id) == AllWrites(ChunksOf(trace, id))
  {
    if trace != [] && !Ended(trace, id) {
      var n := |trace| - 1;
      assert forall i :: 0 <= i < n ==> trace[..n][i] == trace[i];
      GatheredChunks(db, trace[..n], id);
      if trace[n].id == id {
        AllWritesOneMore(ChunksOf(trace[..n], id), trace[n].chunk);
      } else {
        assert ChunksOf(trace, id) == ChunksOf(trace[..n], id);
      }
    }
  }

  /** The reference: whole write lists, one after the other, in the order their last chunks arrive. */
  function InSequence(db: Store, trace: seq<Arrival>, writesOf: int -> seq<Change>): Store {
    if trace == [] then db
    else
      var a := trace[|trace| - 1];
      var before := InSequence(db, trace[..|trace| - 1], writesOf);
      if a.last then Replay(before, writesOf(a.id)) else before
  }

  /** However the chunks of different batches interleave, the database is as if each batch had been
      applied as a whole, in order, when its last chunk arrived. */
  lemma {:induction false} InterleavingsAreSequential(db: Store, trace: seq<Arrival>, writesOf: int -> seq<Change>)
    requires EndOnce(trace)
    requires forall i :: 0 <= i < |trace| && trace[i].last ==>
               SameMeaning(AllWrites(ChunksOf(trace[..i + 1], trace[i].id)), writesOf(trace[i].id))
    ensures RunServer(db, trace).db == InSequence(db, trace, writesOf)
  {
    if trace != [] {
      var n := |trace| - 1;
      var before, a := trace[..n], trace[n];
      forall i | 0 <= i < n
        ensures before[i] == trace[i] && before[..i + 1] == trace[..i + 1]
      {
      }
      InterleavingsAreSequential(db, before, writesOf);
      if a.last {
        assert trace[..n + 1] == trace;
        GatheredChunks(db, before, a.id);
        AllWritesOneMore(ChunksOf(before, a.id), a.chunk);
        SameMeaningReplays(RunServer(db, before).db, AllWrites(ChunksOf(trace, a.id)), writesOf(a.id));
      }
    }
  }
}
