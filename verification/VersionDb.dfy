/** The overlay database of database/versiondb/db.go and the write of all batches at once,
chains/atomic/writer.go. A database is a map; a missing key is not found. */
module VersionDb {
  import opened Options

  /** Pending changes: a value, or None for a delete. */
  type Patch<K, V> = map<K, Option<V>>

  datatype Write<K, V> = Write(key: K, value: Option<V>)

  function Lookup<K, V>(f: map<K, V>, k: K): Option<V> {
    if k in f then Some(f[k]) else None
  }

  /** What is read through the overlay. */
  function Patched<K, V>(f: map<K, V>, p: Patch<K, V>): map<K, V> {
    map k | k in f.Keys + p.Keys && (k in p ==> p[k].Some?) :: if k in p then p[k].value else f[k]
  }

  function ApplyWrite<K, V>(f: map<K, V>, w: Write<K, V>): map<K, V> {
    if w.value.Some? then f[w.key := w.value.value] else f - {w.key}
  }

  /** A batch: its writes in order. */
  function Replay<K, V>(f: map<K, V>, ws: seq<Write<K, V>>): map<K, V> {
    if ws == [] then f else ApplyWrite(Replay(f, ws[..|ws| - 1]), ws[|ws| - 1])
  }

  /** The keys that a batch writes. */
  ghost function KeysOf<K, V>(ws: seq<Write<K, V>>): set<K> {
    set w | w in ws :: w.key
  }

  function Joined<K, V>(batches: seq<seq<Write<K, V>>>): seq<Write<K, V>> {
    if batches == [] then [] else Joined(batches[..|batches| - 1]) + batches[|batches| - 1]
  }

  lemma PatchedAt<K, V>(f: map<K, V>, p: Patch<K, V>, k: K)
    ensures Lookup(Patched(f, p), k) == if k in p then p[k] else Lookup(f, k)
  {
  }

  lemma SameLookups<K(!new), V>(f: map<K, V>, g: map<K, V>)
    requires forall k :: Lookup(f, k) == Lookup(g, k)
    ensures f == g
  {
    assert forall k :: k in f ==> Lookup(g, k) == Some(f[k]);
    assert forall k :: k in g ==> Lookup(f, k) == Some(g[k]);
  }

  /** Writing into the overlay writes what is read through it. */
  lemma PatchedWrite<K(!new), V>(f: map<K, V>, p: Patch<K, V>, w: Write<K, V>)
    ensures Patched(f, p[w.key := w.value]) == ApplyWrite(Patched(f, p), w)
  {
    forall k
      ensures Lookup(Patched(f, p[w.key := w.value]), k) == Lookup(ApplyWrite(Patched(f, p), w), k)
    {
      PatchedAt(f, p, k);
      PatchedAt(f, p[w.key := w.value], k);
    }
    SameLookups(Patched(f, p[w.key := w.value]), ApplyWrite(Patched(f, p), w));
  }

  lemma {:induction false} ReplayJoins<K, V>(f: map<K, V>, a: seq<Write<K, V>>, b: seq<Write<K, V>>)
    ensures Replay(f, a + b) == Replay(Replay(f, a), b)
  {
    if b == [] {
      assert a + b == a;
    } else {
      ReplayJoins(f, a, b[..|b| - 1]);
      assert (a + b)[..|a + b| - 1] == a + b[..|b| - 1];
    }
  }

  lemma {:induction false} ReplayOutside<K, V>(f: map<K, V>, ws: seq<Write<K, V>>, k: K)
    requires forall i :: 0 <= i < |ws| ==> ws[i].key != k
    ensures Lookup(Replay(f, ws), k) == Lookup(f, k)
  {
    if ws != [] { ReplayOutside(f, ws[..|ws| - 1], k); }
  }

  // ---- in place -----------------------------------------------------------------------------

  class Database<K(!new, ==), V> {
    var db: map<K, V>
    var mem: Patch<K, V>

    ghost function View(): map<K, V>
      reads this
    {
      Patched(db, mem)
    }

    constructor (under: map<K, V>)
      ensures db == under && View() == under
    {
      db, mem := under, map[];
    }

    method Get(k: K) returns (v: Option<V>)
      ensures v == Lookup(View(), k)
    {
      PatchedAt(db, mem, k);
      if k in mem {
        return mem[k];
      }
      return Lookup(db, k);
    }

    method Put(k: K, v: V)
      modifies `mem
      ensures View() == old(View())[k := v] && mem.Keys == old(mem.Keys) + {k}
    {
      PatchedWrite(db, mem, Write(k, Some(v)));
      mem := mem[k := Some(v)];
    }

    method Delete(k: K)
      modifies `mem
      ensures View() == old(View()) - {k} && mem.Keys == old(mem.Keys) + {k}
    {
      PatchedWrite(db, mem, Write(k, None));
      mem := mem[k := None];
    }

    /** A batch of this database writes into the overlay, in order. */
    method WriteBatch(batch: seq<Write<K, V>>)
      modifies `mem
      ensures View() == Replay(old(View()), batch) && mem.Keys == old(mem.Keys) + KeysOf(batch)
    {
      for i := 0 to |batch|
        invariant View() == Replay(old(View()), batch[..i]) && mem.Keys == old(mem.Keys) + KeysOf(batch[..i])
      {
        assert batch[..i + 1][..i] == batch[..i] && batch[..i + 1] == batch[..i] + [batch[i]];
        PatchedWrite(db, mem, batch[i]);
        mem := mem[batch[i].key := batch[i].value];
      }
      assert batch[..|batch|] == batch;
    }

    /** The pending changes as one batch, in whatever order the map is walked. */
    method CommitBatch() returns (batch: seq<Write<K, V>>)
      ensures Replay(db, batch) == View()
    {
      batch := [];
      var left := mem.Keys;
      ghost var done: Patch<K, V> := map[];
      while left != {}
        invariant left <= mem.Keys && done.Keys == mem.Keys - left
        invariant forall k :: k in done ==> done[k] == mem[k]
        invariant Replay(db, batch) == Patched(db, done)
        decreases |left|
      {
        var k :| k in left;
        PatchedWrite(db, done, Write(k, mem[k]));
        done := done[k := mem[k]];
        batch, left := batch + [Write(k, mem[k])], left - {k};
        assert batch[..|batch| - 1] + [batch[|batch| - 1]] == batch;
      }
      assert done == mem;
    }
  }

  /** WriteAll: the base batch with every other batch replayed into it, for one atomic write. */
  method MergeBatches<K, V>(base: seq<Write<K, V>>, batches: seq<seq<Write<K, V>>>) returns (all: seq<Write<K, V>>)
    ensures all == base + Joined(batches)
  {
    all := base;
    for i := 0 to |batches|
      invariant all == base + Joined(batches[..i])
    {
      assert batches[..i + 1][..i] == batches[..i];
      all := all + batches[i];
    }
    assert batches[..|batches|] == batches;
  }
}
