/** cache/lru_cache.go: a bounded cache kept as a map into a list ordered by use.

The specification is a plain sequence of entries, least recently used first. List elements,
which the source reaches through pointers, are named by handles. */
module Lru {
  import opened Options
  type Entries<K, V> = seq<(K, V)>

  // ---- specification ------------------------------------------------------------------------

  ghost predicate NoDup<K, V>(s: Entries<K, V>) {
    forall i, j :: 0 <= i < j < |s| ==> s[i].0 != s[j].0
  }

  /** A non-positive size is read as one. */
  function Limit(size: int): nat {
    if size <= 0 then 1 else size
  }

  /** The `n` most recently used entries. */
  function Recent<K, V>(s: Entries<K, V>, n: nat): Entries<K, V> {
    if |s| <= n then s else s[|s| - n..]
  }

  function Find<K(==), V>(s: Entries<K, V>, k: K): Option<V> {
    if s == [] then None
    else if s[|s| - 1].0 == k then Some(s[|s| - 1].1)
    else Find(s[..|s| - 1], k)
  }

  function Remove<K(==), V>(s: Entries<K, V>, k: K): Entries<K, V> {
    if s == [] then []
    else if s[|s| - 1].0 == k then Remove(s[..|s| - 1], k)
    else Remove(s[..|s| - 1], k) + [s[|s| - 1]]
  }

  /** Put moves the key to the back; when that overflows, the front entry goes. */
  function Put<K(==), V>(s: Entries<K, V>, size: int, k: K, v: V): Entries<K, V> {
    var n := Limit(size);
    Recent(Remove(Recent(s, n), k) + [(k, v)], n)
  }

  function Get<K(==), V>(s: Entries<K, V>, size: int, k: K): (Entries<K, V>, Option<V>) {
    var s1 := Recent(s, Limit(size));
    match Find(s1, k)
    case None => (s1, None)
    case Some(v) => (Remove(s1, k) + [(k, v)], Some(v))
  }

  function Evict<K(==), V>(s: Entries<K, V>, size: int, k: K): Entries<K, V> {
    Remove(Recent(s, Limit(size)), k)
  }

  lemma {:induction false} RemoveAbsent<K, V>(s: Entries<K, V>, k: K)
    requires forall i :: 0 <= i < |s| ==> s[i].0 != k
    ensures Remove(s, k) == s && Find(s, k) == None
  {
    if s != [] {
      RemoveAbsent(s[..|s| - 1], k);
      assert s == s[..|s| - 1] + [s[|s| - 1]];
    }
  }

  lemma {:induction false} RemoveAt<K, V>(s: Entries<K, V>, i: nat)
    requires NoDup(s) && i < |s|
    ensures Remove(s, s[i].0) == s[..i] + s[i + 1..] && Find(s, s[i].0) == Some(s[i].1)
  {
    var t := s[..|s| - 1];
    if i == |s| - 1 {
      RemoveAbsent(t, s[i].0);
      assert s[..i] + s[i + 1..] == t;
    } else {
      RemoveAt(t, i);
      assert s[..i] + s[i + 1..] == t[..i] + t[i + 1..] + [s[|s| - 1]];
    }
  }

  // ---- representation -----------------------------------------------------------------------

  /** The map, the list of element handles (front first) and what each element holds. */
  datatype Rep<K, V> = Rep(keys: map<K, nat>, list: seq<nat>, entries: map<nat, (K, V)>)

  predicate Distinct(l: seq<nat>) {
    forall i, j :: 0 <= i < j < |l| ==> l[i] != l[j]
  }

  /** The map and the list hold the same elements, each under its own key. */
  ghost predicate Ok<K(!new), V>(r: Rep<K, V>) {
    && Distinct(r.list)
    && (forall h :: h in r.list ==> h in r.entries && r.entries[h].0 in r.keys && r.keys[r.entries[h].0] == h)
    && (forall k :: k in r.keys ==> r.keys[k] in r.list && r.keys[k] in r.entries && r.entries[r.keys[k]].0 == k)
  }

  ghost function Abs<K(!new), V>(r: Rep<K, V>): (s: Entries<K, V>)
    requires Ok(r)
    ensures |s| == |r.list| && NoDup(s)
  {
    seq(|r.list|, i requires 0 <= i < |r.list| => assert r.list[i] in r.list; r.entries[r.list[i]])
  }

  lemma KeyInAbs<K(!new), V>(r: Rep<K, V>, k: K)
    requires Ok(r)
    ensures k in r.keys ==> exists i :: 0 <= i < |r.list| && Abs(r)[i].0 == k
    ensures k !in r.keys ==> forall i :: 0 <= i < |r.list| ==> Abs(r)[i].0 != k
  {
    if k in r.keys {
      var i :| 0 <= i < |r.list| && r.list[i] == r.keys[k];
      assert Abs(r)[i].0 == k;
    }
  }

  function DropIndex(l: seq<nat>, i: nat): seq<nat>
    requires i < |l|
  {
    l[..i] + l[i + 1..]
  }

  lemma DropIndexMembers(l: seq<nat>, i: nat)
    requires i < |l| && Distinct(l)
    ensures Distinct(DropIndex(l, i))
    ensures forall h :: h in DropIndex(l, i) <==> h in l && h != l[i]
  {
    var l' := DropIndex(l, i);
    forall h | h in l && h != l[i]
      ensures h in l'
    {
      var j :| 0 <= j < |l| && l[j] == h;
      assert l'[if j < i then j else j - 1] == h;
    }
  }

  /** The element at `i` leaves the list and its key the map. */
  function DropAt<K, V>(r: Rep<K, V>, i: nat): Rep<K, V>
    requires i < |r.list| && r.list[i] in r.entries
  {
    r.(keys := r.keys - {r.entries[r.list[i]].0}, list := DropIndex(r.list, i))
  }

  lemma DropAtKeepsOk<K(!new), V>(r: Rep<K, V>, i: nat)
    requires Ok(r) && i < |r.list|
    ensures r.list[i] in r.entries && Ok(DropAt(r, i))
  {
    assert r.list[i] in r.list;
    DropIndexMembers(r.list, i);
  }

  lemma DropAtOk<K(!new), V>(r: Rep<K, V>, i: nat)
    requires Ok(r) && i < |r.list|
    ensures r.list[i] in r.entries && Ok(DropAt(r, i)) && Abs(DropAt(r, i)) == Abs(r)[..i] + Abs(r)[i + 1..]
  {
    DropAtKeepsOk(r, i);
    var s, s' := Abs(r), Abs(DropAt(r, i));
    forall j | 0 <= j < |s'|
      ensures s'[j] == (s[..i] + s[i + 1..])[j]
    {
      assert DropAt(r, i).list[j] == r.list[if j < i then j else j + 1];
    }
  }

  /** Element `h`, not in the list, joins at the back. */
  function Append<K, V>(r: Rep<K, V>, h: nat, k: K, v: V): Rep<K, V> {
    Rep(r.keys[k := h], r.list + [h], r.entries[h := (k, v)])
  }

  lemma AppendOk<K(!new), V>(r: Rep<K, V>, h: nat, k: K, v: V)
    requires Ok(r) && h !in r.list && k !in r.keys
    ensures Ok(Append(r, h, k, v)) && Abs(Append(r, h, k, v)) == Abs(r) + [(k, v)]
  {
    var r' := Append(r, h, k, v);
    assert forall x :: x in r'.list <==> x in r.list || x == h;
    assert Ok(r');
    assert forall j :: 0 <= j < |r.list| ==> r.list[j] in r.list && r'.entries[r.list[j]] == r.entries[r.list[j]];
  }

  // ---- the cache ----------------------------------------------------------------------------

  class LRU<K(==,!new), V(!new)> {
    var entryMap: map<K, nat>
    var entryList: seq<nat>
    var entries: map<nat, (K, V)>
    var nextHandle: nat
    var size: int

    ghost function View(): Rep<K, V>
      reads this
    {
      Rep(entryMap, entryList, entries)
    }

    ghost predicate Valid()
      reads this
    {
      Ok(View()) && forall h :: h in entryList ==> h < nextHandle
    }

    /** The cached entries, least recently used first. */
    ghost function Contents(): Entries<K, V>
      requires Valid()
      reads this
    {
      Abs(View())
    }

    constructor (size: int)
      ensures Valid() && Contents() == [] && this.size == size
    {
      entryMap, entryList, entries, nextHandle := map[], [], map[], 0;
      this.size := size;
    }

    method Init()
      requires Valid()
      modifies this`size
      ensures Valid() && Contents() == old(Contents()) && size == Limit(old(size))
      ensures size == if old(size) <= 0 then 1 else old(size)
    {
      if size <= 0 {
        size := 1;
      }
    }

    /** entryList.Remove(e) together with the deletion of its key. */
    method Unlink(i: nat)
      requires Valid() && i < |entryList|
      modifies this`entryList, this`entryMap
      ensures Valid() && Contents() == old(Contents())[..i] + old(Contents())[i + 1..]
      ensures entryList == DropIndex(old(entryList), i) && entryMap.Keys < old(entryMap).Keys
      ensures old(entryList)[i] !in entryList && old(entryList)[i] in entries && entries[old(entryList)[i]].0 !in entryMap
    {
      DropAtOk(View(), i);
      DropIndexMembers(entryList, i);
      entryMap := entryMap - {entries[entryList[i]].0};
      entryList := entryList[..i] + entryList[i + 1..];
      assert View() == DropAt(old(View()), i);
    }

    /** The list element gets a new entry at the back. */
    method Link(h: nat, k: K, v: V)
      requires Valid() && h !in entryList && k !in entryMap && h < nextHandle
      modifies this`entryList, this`entryMap, this`entries
      ensures Valid() && Contents() == old(Contents()) + [(k, v)]
    {
      AppendOk(View(), h, k, v);
      entries := entries[h := (k, v)];
      entryList := entryList + [h];
      entryMap := entryMap[k := h];
      assert View() == Append(old(View()), h, k, v);
    }

    method Resize()
      requires Valid() && size > 0
      modifies this`entryList, this`entryMap
      ensures Valid() && Contents() == Recent(old(Contents()), size)
    {
      ghost var all := Contents();
      while |entryList| > size
        invariant Valid() && |entryList| <= |all| && Contents() == all[|all| - |entryList|..]
        invariant |entryList| >= if |all| > size then size else |all|
      {
        Unlink(0);
      }
    }

    method Trim()
      requires Valid()
      modifies this
      ensures Valid() && size == Limit(old(size)) && Contents() == Recent(old(Contents()), size)
      ensures |entryList| <= size
    {
      Init();
      Resize();
    }

    /** MoveToBack, with the entry replaced. */
    method MoveToBack(i: nat, k: K, v: V)
      requires Valid() && i < |entryList| && (k in entryMap ==> entryMap[k] == entryList[i])
      modifies this
      ensures Valid() && Contents() == old(Contents())[..i] + old(Contents())[i + 1..] + [(k, v)] && size == old(size)
    {
      var e := entryList[i];
      Unlink(i);
      Link(e, k, v);
    }

    method PushBack(k: K, v: V)
      requires Valid() && k !in entryMap
      modifies this
      ensures Valid() && Contents() == old(Contents()) + [(k, v)] && size == old(size)
    {
      var e := nextHandle;
      nextHandle := nextHandle + 1;
      assert View() == old(View());
      Link(e, k, v);
    }

    /** put after init and resize. */
    method PutTrimmed(k: K, v: V)
      requires Valid() && 0 < size && |entryList| <= size
      modifies this
      ensures Valid() && Contents() == Put(old(Contents()), size, k, v) && size == old(size)
    {
      if k !in entryMap {
        PutNew(k, v);
      } else {
        assert entryMap[k] in entryList;
        var i :| 0 <= i < |entryList| && entryList[i] == entryMap[k];
        PutPresent(Contents(), size, i, v);
        MoveToBack(i, k, v);
      }
    }

    /** A new key takes a free place, or that of the front entry. */
    method PutNew(k: K, v: V)
      requires Valid() && 0 < size && |entryList| <= size && k !in entryMap
      modifies this
      ensures Valid() && Contents() == Put(old(Contents()), size, k, v) && size == old(size)
    {
      KeyInAbs(View(), k);
      PutAbsent(Contents(), size, k, v);
      if |entryList| >= size {
        assert Contents()[..0] + Contents()[1..] == Contents()[1..];
        MoveToBack(0, k, v);
      } else {
        PushBack(k, v);
      }
    }

    method PutEntry(k: K, v: V)
      requires Valid()
      modifies this
      ensures Valid() && Contents() == Put(old(Contents()), old(size), k, v) && size == Limit(old(size))
    {
      Trim();
      PutTrimmed(k, v);
    }

    method GetEntry(k: K) returns (r: Option<V>)
      requires Valid()
      modifies this
      ensures Valid() && (Contents(), r) == Get(old(Contents()), old(size), k) && size == Limit(old(size))
    {
      Trim();
      KeyInAbs(View(), k);
      if k in entryMap {
        var i :| 0 <= i < |entryList| && entryList[i] == entryMap[k];
        RemoveAt(Contents(), i);
        r := Some(entries[entryList[i]].1);
        MoveToBack(i, k, r.value);
      } else {
        RemoveAbsent(Contents(), k);
        r := None;
      }
    }

    method EvictEntry(k: K)
      requires Valid()
      modifies this
      ensures Valid() && Contents() == Evict(old(Contents()), old(size), k) && size == Limit(old(size))
    {
      Trim();
      KeyInAbs(View(), k);
      if k in entryMap {
        var i :| 0 <= i < |entryList| && entryList[i] == entryMap[k];
        RemoveAt(Contents(), i);
        Unlink(i);
      } else {
        RemoveAbsent(Contents(), k);
      }
    }

    method Flush()
      requires Valid()
      modifies this
      ensures Valid() && Contents() == [] && size == Limit(old(size))
    {
      Init();
      entryMap := map[];
      entryList := [];
    }
  }

  lemma PutAbsent<K, V>(s: Entries<K, V>, n: nat, k: K, v: V)
    requires 0 < n && |s| <= n && forall i :: 0 <= i < |s| ==> s[i].0 != k
    ensures Put(s, n, k, v) == if |s| >= n then s[1..] + [(k, v)] else s + [(k, v)]
  {
    RemoveAbsent(s, k);
    var t := s + [(k, v)];
    assert Put(s, n, k, v) == Recent(t, n);
    if |s| >= n {
      assert |t| - n == 1;
      assert t[1..] == s[1..] + [(k, v)];
    }
  }

  lemma PutPresent<K, V>(s: Entries<K, V>, n: nat, i: nat, v: V)
    requires 0 < n && |s| <= n && NoDup(s) && i < |s|
    ensures Put(s, n, s[i].0, v) == s[..i] + s[i + 1..] + [(s[i].0, v)]
  {
    RemoveAt(s, i);
  }

  // ---- whole runs ---------------------------------------------------------------------------

  datatype Op<K, V> = PutOp(key: K, value: V) | GetOp(key: K) | EvictOp(key: K) | FlushOp | SetSize(size: int)

  datatype Cache<K, V> = Cache(entries: Entries<K, V>, size: int)

  function Step<K(==), V>(c: Cache<K, V>, op: Op<K, V>): Cache<K, V> {
    match op
    case PutOp(k, v) => Cache(Put(c.entries, c.size, k, v), Limit(c.size))
    case GetOp(k) => Cache(Get(c.entries, c.size, k).0, Limit(c.size))
    case EvictOp(k) => Cache(Evict(c.entries, c.size, k), Limit(c.size))
    case FlushOp => Cache([], Limit(c.size))
    case SetSize(n) => c.(size := n)
  }

  function Run<K(==), V>(size: int, ops: seq<Op<K, V>>): Cache<K, V> {
    if ops == [] then Cache([], size) else Step(Run(size, ops[..|ops| - 1]), ops[|ops| - 1])
  }

  /** The value the last Put left under `k`, unless an Evict or a Flush came after it. */
  function LastPut<K(==), V>(ops: seq<Op<K, V>>, k: K): Option<V> {
    if ops == [] then None
    else
      var op := ops[|ops| - 1];
      if op.PutOp? && op.key == k then Some(op.value)
      else if op.FlushOp? || (op.EvictOp? && op.key == k) then None
      else LastPut(ops[..|ops| - 1], k)
  }

  /** One more than the position of the last Put or Get of `k`; zero if there is none. */
  function LastUse<K(==), V>(ops: seq<Op<K, V>>, k: K): nat {
    if ops == [] then 0
    else
      var op := ops[|ops| - 1];
      if (op.PutOp? || op.GetOp?) && op.key == k then |ops| else LastUse(ops[..|ops| - 1], k)
  }

  lemma {:induction false} LastUseBound<K, V>(ops: seq<Op<K, V>>, k: K)
    ensures LastUse(ops, k) <= |ops|
  {
    if ops != [] { LastUseBound(ops[..|ops| - 1], k); }
  }

  /** `t` keeps some entries of `s`, in the same order and without `k`. */
  ghost predicate Keeps<K, V>(t: Entries<K, V>, s: Entries<K, V>, k: K, at: seq<nat>) {
    && |at| == |t|
    && (forall i :: 0 <= i < |t| ==> at[i] < |s| && s[at[i]] == t[i] && t[i].0 != k)
    && (forall i, j :: 0 <= i < j < |t| ==> at[i] < at[j])
  }

  lemma KeepsLonger<K, V>(t: Entries<K, V>, s: Entries<K, V>, k: K, at: seq<nat>)
    requires s != [] && Keeps(t, s[..|s| - 1], k, at)
    ensures Keeps(t, s, k, at) && forall i :: 0 <= i < |at| ==> at[i] < |s| - 1
  {
  }

  lemma {:induction false} RemoveKeeps<K, V>(s: Entries<K, V>, k: K) returns (at: seq<nat>)
    ensures Keeps(Remove(s, k), s, k, at)
  {
    if s == [] {
      at := [];
    } else {
      var n := |s| - 1;
      var before := RemoveKeeps(s[..n], k);
      KeepsLonger(Remove(s[..n], k), s, k, before);
      at := if s[n].0 == k then before else before + [n];
      if s[n].0 != k { KeepsLast(Remove(s[..n], k), s, k, before); }
    }
  }

  lemma KeepsLast<K, V>(t: Entries<K, V>, s: Entries<K, V>, k: K, at: seq<nat>)
    requires s != [] && Keeps(t, s, k, at) && s[|s| - 1].0 != k && forall i :: 0 <= i < |at| ==> at[i] < |s| - 1
    ensures Keeps(t + [s[|s| - 1]], s, k, at + [|s| - 1])
  {
  }

  /** Every entry holds the last value put under its key, and the entries are in order of last use. */
  ghost predicate Tracks<K, V>(ops: seq<Op<K, V>>, s: Entries<K, V>) {
    && (forall i :: 0 <= i < |s| ==> LastPut(ops, s[i].0) == Some(s[i].1))
    && (forall i, j :: 0 <= i < j < |s| ==> LastUse(ops, s[i].0) < LastUse(ops, s[j].0))
  }

  lemma TracksRecent<K, V>(ops: seq<Op<K, V>>, s: Entries<K, V>, n: nat)
    requires Tracks(ops, s)
    ensures Tracks(ops, Recent(s, n)) && |Recent(s, n)| <= n
  {
  }

  lemma TracksRemove<K, V>(ops: seq<Op<K, V>>, s: Entries<K, V>, k: K)
    requires Tracks(ops, s)
    ensures Tracks(ops, Remove(s, k)) && |Remove(s, k)| <= |s|
    ensures forall i :: 0 <= i < |Remove(s, k)| ==> Remove(s, k)[i].0 != k && Remove(s, k)[i] in s
  {
    var at := RemoveKeeps(s, k);
    var t := Remove(s, k);
    forall i, j | 0 <= i < j < |t|
      ensures LastUse(ops, t[i].0) < LastUse(ops, t[j].0)
    {
      assert s[at[i]] == t[i] && s[at[j]] == t[j];
    }
    if |t| > |s| { TooMany(at, |s|); }
  }

  /** Strictly increasing numbers below `n` are at most `n`. */
  lemma {:induction false} TooMany(at: seq<nat>, n: nat)
    requires forall i, j :: 0 <= i < j < |at| ==> at[i] < at[j]
    requires forall i :: 0 <= i < |at| ==> at[i] < n
    ensures |at| <= n
  {
    if at != [] { TooMany(at[..|at| - 1], at[|at| - 1]); }
  }

  /** An operation that neither uses nor writes the keys of `s` leaves them as they were. */
  lemma TracksSame<K, V>(ops: seq<Op<K, V>>, op: Op<K, V>, s: Entries<K, V>)
    requires Tracks(ops, s) && (s == [] || !op.FlushOp?)
    requires forall i :: 0 <= i < |s| ==> op.SetSize? || op.FlushOp? || s[i].0 != op.key
    ensures Tracks(ops + [op], s)
  {
    assert (ops + [op])[..|ops|] == ops;
  }

  lemma TracksUsed<K, V>(ops: seq<Op<K, V>>, op: Op<K, V>, s: Entries<K, V>, v: V)
    requires Tracks(ops, s) && (op.PutOp? || op.GetOp?) && LastPut(ops + [op], op.key) == Some(v)
    requires forall i :: 0 <= i < |s| ==> s[i].0 != op.key
    ensures Tracks(ops + [op], s + [(op.key, v)])
  {
    TracksSame(ops, op, s);
    assert (ops + [op])[..|ops|] == ops;
    forall i | 0 <= i < |s|
      ensures LastUse(ops + [op], s[i].0) <= |ops|
    {
      LastUseBound(ops, s[i].0);
    }
  }

  lemma {:induction false} FindMember<K, V>(s: Entries<K, V>, k: K)
    ensures match Find(s, k)
            case Some(v) => (k, v) in s
            case None => forall i :: 0 <= i < |s| ==> s[i].0 != k
  {
    if s != [] {
      FindMember(s[..|s| - 1], k);
      assert s == s[..|s| - 1] + [s[|s| - 1]];
    }
  }

  /** What a client may rely on: a put adds one entry and drops any other of its key; a get adds none. */
  lemma PutMembers<K(!new), V(!new)>(s: Entries<K, V>, size: int, k: K, v: V)
    ensures forall e :: e in Put(s, size, k, v) ==> e == (k, v) || (e in s && e.0 != k)
  {
    var s1 := Recent(s, Limit(size));
    var at := RemoveKeeps(s1, k);
    assert forall e :: e in s1 ==> e in s;
    assert forall e :: e in Remove(s1, k) ==> e in s1 && e.0 != k;
  }

  lemma GetMembers<K(!new), V(!new)>(s: Entries<K, V>, size: int, k: K)
    ensures forall e :: e in Get(s, size, k).0 ==> e in s
    ensures Get(s, size, k).1.Some? ==> (k, Get(s, size, k).1.value) in s
  {
    var s1 := Recent(s, Limit(size));
    FindMember(s1, k);
    var at := RemoveKeeps(s1, k);
    assert forall e :: e in s1 ==> e in s;
    assert forall e :: e in Remove(s1, k) ==> e in s1;
  }

  lemma StepTracks<K, V>(ops: seq<Op<K, V>>, c: Cache<K, V>, op: Op<K, V>)
    requires Tracks(ops, c.entries)
    ensures Tracks(ops + [op], Step(c, op).entries)
    ensures !op.SetSize? ==> |Step(c, op).entries| <= Step(c, op).size
  {
    var s1 := Recent(c.entries, Limit(c.size));
    TracksRecent(ops, c.entries, Limit(c.size));
    assert (ops + [op])[..|ops|] == ops;
    match op
    case PutOp(k, v) =>
      TracksRemove(ops, s1, k);
      TracksUsed(ops, op, Remove(s1, k), v);
      TracksRecent(ops + [op], Remove(s1, k) + [(k, v)], Limit(c.size));
    case GetOp(k) =>
      FindMember(s1, k);
      if Find(s1, k).Some? {
        var v := Find(s1, k).value;
        TracksRemove(ops, s1, k);
        TracksUsed(ops, op, Remove(s1, k), v);
        HitKeepsLength(s1, k, v);
      } else {
        TracksSame(ops, op, s1);
      }
    case EvictOp(k) =>
      TracksRemove(ops, s1, k);
      TracksSame(ops, op, Remove(s1, k));
    case FlushOp =>
    case SetSize(_) => TracksSame(ops, op, c.entries);
  }

  lemma HitKeepsLength<K, V>(s: Entries<K, V>, k: K, v: V)
    requires (k, v) in s
    ensures |Remove(s, k)| < |s|
  {
    var at := RemoveKeeps(s, k);
    var i :| 0 <= i < |s| && s[i] == (k, v);
    TooMany(Squeeze(at, i), |s| - 1);
  }

  function Squeeze(at: seq<nat>, i: nat): (r: seq<nat>)
    requires i !in at
    ensures |r| == |at| && forall j :: 0 <= j < |at| ==> r[j] == if at[j] < i then at[j] else at[j] - 1
  {
    seq(|at|, j requires 0 <= j < |at| => assert at[j] in at; if at[j] < i then at[j] else at[j] - 1)
  }

  /** After any run, even one that changes Size between calls: no stale value, entries in order of
      last use (so the front, the one dropped, is the least recently used), and no overflow once an
      operation has run. */
  lemma {:induction false} RunsTrack<K, V>(size: int, ops: seq<Op<K, V>>)
    ensures Tracks(ops, Run(size, ops).entries) && NoDup(Run(size, ops).entries)
    ensures ops != [] && !ops[|ops| - 1].SetSize? ==> |Run(size, ops).entries| <= Run(size, ops).size
  {
    if ops != [] {
      var n := |ops| - 1;
      RunsTrack(size, ops[..n]);
      StepTracks(ops[..n], Run(size, ops[..n]), ops[n]);
      assert ops[..n] + [ops[n]] == ops;
    }
  }

  // ---- what must still be cached ----

  predicate Cached<K(==), V>(s: Entries<K, V>, k: K) {
    exists i :: 0 <= i < |s| && s[i].0 == k
  }

  lemma FindIsCached<K, V>(s: Entries<K, V>, k: K)
    ensures Cached(s, k) <==> Find(s, k).Some?
  {
    FindMember(s, k);
    if Find(s, k).Some? {
      var i :| 0 <= i < |s| && s[i] == (k, Find(s, k).value);
      assert s[i].0 == k;
    }
  }

  /** After any run a Get is answered with the last value put, exactly if the key is among the entries that the
      size leaves room for; and exactly then the key is cached afterwards, as the one used last. */
  lemma GetAnswers<K, V>(size: int, ops: seq<Op<K, V>>, k: K)
    ensures var c := Run(size, ops);
            var (s, r) := Get(c.entries, c.size, k);
            && r == (if Cached(Recent(c.entries, Limit(c.size)), k) then LastPut(ops, k) else None)
            && (r.Some? <==> Cached(Recent(c.entries, Limit(c.size)), k))
            && (r.Some? <==> Cached(s, k)) && (r.Some? ==> s != [] && s[|s| - 1] == (k, r.value))
  {
    var c := Run(size, ops);
    var s1 := Recent(c.entries, Limit(c.size));
    RunsTrack(size, ops);
    TracksRecent(ops, c.entries, Limit(c.size));
    FindIsCached(s1, k);
    FindMember(s1, k);
    if Find(s1, k).Some? {
      var v := Find(s1, k).value;
      var i :| 0 <= i < |s1| && s1[i] == (k, v);
      assert LastPut(ops, s1[i].0) == Some(v);
      CachedAppend(Remove(s1, k), (k, v), k);
    }
  }

  /** The number of operations up to and including the last Put of `k`. */
  function LastPutAt<K(==), V>(ops: seq<Op<K, V>>, k: K): nat {
    if ops == [] || (ops[|ops| - 1].PutOp? && ops[|ops| - 1].key == k) then |ops| else LastPutAt(ops[..|ops| - 1], k)
  }

  ghost function KeysIn<K, V>(ops: seq<Op<K, V>>): set<K> {
    set i | 0 <= i < |ops| && ops[i].PutOp? :: ops[i].key
  }

  /** The other keys that hold a value and were used after the last use of `k`. */
  ghost function UsedSince<K, V>(ops: seq<Op<K, V>>, k: K): set<K> {
    set x | x in KeysIn(ops) && x != k && LastPut(ops, x).Some? && LastUse(ops, x) > LastUse(ops, k)
  }

  lemma {:induction false} PutKeys<K, V>(ops: seq<Op<K, V>>, k: K)
    requires LastPut(ops, k).Some?
    ensures k in KeysIn(ops)
  {
    var n := |ops| - 1;
    if ops[n].PutOp? && ops[n].key == k {
    } else {
      PutKeys(ops[..n], k);
      var i :| 0 <= i < n && ops[..n][i].PutOp? && ops[..n][i].key == k;
      assert ops[i].key == k;
    }
  }

  ghost function KeySet<K, V>(s: Entries<K, V>): set<K> {
    set i | 0 <= i < |s| :: s[i].0
  }

  lemma {:induction false} KeySetSize<K, V>(s: Entries<K, V>)
    requires NoDup(s)
    ensures |KeySet(s)| == |s|
  {
    if s != [] {
      var n := |s| - 1;
      KeySetSize(s[..n]);
      forall x
        ensures x in KeySet(s) <==> x in KeySet(s[..n]) || x == s[n].0
      {
        if x in KeySet(s[..n]) {
          var i :| 0 <= i < n && s[..n][i].0 == x;
          assert s[i].0 == x;
        }
        if x in KeySet(s) && x != s[n].0 {
          var i :| 0 <= i < |s| && s[i].0 == x;
          assert s[..n][i].0 == x;
        }
      }
      assert KeySet(s) == KeySet(s[..n]) + {s[n].0};
      assert s[n].0 !in KeySet(s[..n]);
    }
  }

  lemma {:induction false} SubsetSize<K>(a: set<K>, b: set<K>)
    requires a <= b
    ensures |a| <= |b|
  {
    if a != {} {
      var x :| x in a;
      SubsetSize(a - {x}, b - {x});
    }
  }

  /** Everything behind an entry was used after it. */
  lemma BehindIsUsedSince<K, V>(ops: seq<Op<K, V>>, s: Entries<K, V>, i: nat)
    requires Tracks(ops, s) && i < |s|
    ensures |UsedSince(ops, s[i].0)| >= |s| - 1 - i
  {
    var rest := s[i + 1..];
    assert NoDup(rest);
    KeySetSize(rest);
    forall x | x in KeySet(rest)
      ensures x in UsedSince(ops, s[i].0)
    {
      var j :| 0 <= j < |rest| && rest[j].0 == x;
      assert s[i + 1 + j] == rest[j];
      PutKeys(ops, x);
    }
    SubsetSize(KeySet(rest), UsedSince(ops, s[i].0));
  }

  lemma RecentKeeps<K, V>(s: Entries<K, V>, n: nat, i: nat)
    requires i < |s| && |s| - n <= i
    ensures Cached(Recent(s, n), s[i].0)
  {
    if |s| > n { assert Recent(s, n)[i - (|s| - n)] == s[i]; } else { assert Recent(s, n)[i] == s[i]; }
  }

  lemma RemoveKeepsOthers<K, V>(s: Entries<K, V>, k: K, x: K)
    requires Cached(s, x) && x != k && NoDup(s)
    ensures Cached(Remove(s, k), x)
  {
    var i :| 0 <= i < |s| && s[i].0 == x;
    if j :| 0 <= j < |s| && s[j].0 == k {
      RemoveAt(s, j);
      var t := s[..j] + s[j + 1..];
      assert t[if i < j then i else i - 1] == s[i];
    } else {
      RemoveAbsent(s, k);
    }
  }

  lemma CachedAppend<K, V>(s: Entries<K, V>, e: (K, V), x: K)
    requires Cached(s, x) || e.0 == x
    ensures Cached(s + [e], x)
  {
    if e.0 == x {
      assert (s + [e])[|s|].0 == x;
    } else {
      var i :| 0 <= i < |s| && s[i].0 == x;
      assert (s + [e])[i].0 == x;
    }
  }

  /** A live key that an operation drops is pushed out: by the size before it, or by the put itself. */
  lemma DropsOnlyWhenFull<K, V>(ops: seq<Op<K, V>>, c: Cache<K, V>, op: Op<K, V>, k: K)
    requires Tracks(ops, c.entries) && Cached(c.entries, k) && LastPut(ops + [op], k).Some? && !Cached(Step(c, op).entries, k)
    ensures |UsedSince(ops, k)| >= Limit(c.size) || |UsedSince(ops + [op], k)| >= Limit(Step(c, op).size)
  {
    var s, n := c.entries, Limit(c.size);
    var i :| 0 <= i < |s| && s[i].0 == k;
    BehindIsUsedSince(ops, s, i);
    assert (ops + [op])[..|ops|] == ops;
    if |s| - n <= i && !op.SetSize? {
      var s1 := Recent(s, n);
      RecentKeeps(s, n, i);
      TracksRecent(ops, s, n);
      assert NoDup(s1);
      StaysInTrimmed(ops, s1, n, op, k);
    }
  }

  /** The trimmed entries lose a live key to a put of another key only, and only from the front. */
  lemma StaysInTrimmed<K, V>(ops: seq<Op<K, V>>, s: Entries<K, V>, n: nat, op: Op<K, V>, k: K)
    requires 0 < n && |s| <= n && Tracks(ops, s) && NoDup(s) && Cached(s, k) && LastPut(ops + [op], k).Some? && !op.SetSize?
    ensures var s' := if op.PutOp? then Recent(Remove(s, op.key) + [(op.key, op.value)], n)
                      else if op.EvictOp? then Remove(s, op.key)
                      else if op.GetOp? && Find(s, op.key).Some? then Remove(s, op.key) + [(op.key, Find(s, op.key).value)]
                      else s;
            !op.FlushOp? && (Cached(s', k) || |UsedSince(ops + [op], k)| >= n)
  {
    assert (ops + [op])[..|ops|] == ops;
    if op.PutOp? || op.GetOp? || op.EvictOp? {
      if op.key != k { RemoveKeepsOthers(s, op.key, k); }
      if op.PutOp? {
        var t := Remove(s, op.key) + [(op.key, op.value)];
        TracksRemove(ops, s, op.key);
        TracksUsed(ops, op, Remove(s, op.key), op.value);
        CachedAppend(Remove(s, op.key), (op.key, op.value), k);
        var i :| 0 <= i < |t| && t[i].0 == k;
        BehindIsUsedSince(ops + [op], t, i);
        if |t| - n <= i { RecentKeeps(t, n, i); }
      } else if op.GetOp? && Find(s, op.key).Some? {
        CachedAppend(Remove(s, op.key), (op.key, Find(s, op.key).value), k);
      }
    }
  }

  lemma PutIsCached<K, V>(c: Cache<K, V>, k: K, v: V)
    ensures Cached(Put(c.entries, c.size, k, v), k)
  {
    var n := Limit(c.size);
    var t := Remove(Recent(c.entries, n), k) + [(k, v)];
    RecentKeeps(t, n, |t| - 1);
  }

  /** Nothing is dropped early: a key that holds a value is missing only if at some moment since its last
      put at least as many other keys, all holding a value, had been used after it as the cache had room for. */
  lemma {:induction false} MissingOnlyWhenFull<K, V>(size: int, ops: seq<Op<K, V>>, k: K) returns (m: nat)
    requires LastPut(ops, k).Some? && !Cached(Run(size, ops).entries, k)
    ensures LastPutAt(ops, k) <= m <= |ops| && |UsedSince(ops[..m], k)| >= Limit(Run(size, ops[..m]).size)
  {
    var n := |ops| - 1;
    var before, op := ops[..n], ops[n];
    var c := Run(size, before);
    assert ops == before + [op];
    if op.PutOp? && op.key == k {
      PutIsCached(c, k, op.value);
    }
    LastPutBound(before, k);
    if Cached(c.entries, k) {
      RunsTrack(size, before);
      DropsOnlyWhenFull(before, c, op, k);
      m := if |UsedSince(before, k)| >= Limit(c.size) then n else n + 1;
      assert ops[..n + 1] == ops;
    } else {
      m := MissingOnlyWhenFull(size, before, k);
      assert before[..m] == ops[..m];
    }
  }

  lemma {:induction false} LastPutBound<K, V>(ops: seq<Op<K, V>>, k: K)
    ensures LastPutAt(ops, k) <= |ops|
  {
    if ops != [] { LastPutBound(ops[..|ops| - 1], k); }
  }

  // ---- a bounded cache is the recent end of an unbounded one ----

  lemma {:induction false} RemoveConcat<K, V>(a: Entries<K, V>, b: Entries<K, V>, k: K)
    ensures Remove(a + b, k) == Remove(a, k) + Remove(b, k)
  {
    if b == [] {
      assert a + b == a;
    } else {
      var n := |b| - 1;
      RemoveConcat(a, b[..n], k);
      assert (a + b)[..|a + b| - 1] == a + b[..n];
    }
  }

  lemma RecentEnd<K, V>(a: Entries<K, V>, b: Entries<K, V>, n: nat)
    requires |b| == n
    ensures Recent(a + b, n) == b
  {
  }

  lemma PutAtEndPresent<K, V>(a: Entries<K, V>, b: Entries<K, V>, i: nat, v: V)
    requires NoDup(b) && i < |b|
    ensures Put(b, |b|, b[i].0, v) == Recent(Remove(a + b, b[i].0) + [(b[i].0, v)], |b|)
  {
    var k, e := b[i].0, [(b[i].0, v)];
    RemoveConcat(a, b, k);
    RemoveAt(b, i);
    PutPresent(b, |b|, i, v);
    RecentEnd(Remove(a, k), Remove(b, k) + e, |b|);
    assert Remove(a, k) + (Remove(b, k) + e) == Remove(a + b, k) + e;
  }

  lemma Regroup<T>(a: seq<T>, b: seq<T>, c: seq<T>)
    requires b != []
    ensures a + b + c == (a + b[..1]) + (b[1..] + c)
  {
    assert b == b[..1] + b[1..];
  }

  lemma PutAtEndAbsent<K, V>(a: Entries<K, V>, b: Entries<K, V>, k: K, v: V)
    requires b != [] && forall i :: 0 <= i < |b| ==> b[i].0 != k
    ensures Put(b, |b|, k, v) == Recent(Remove(a + b, k) + [(k, v)], |b|)
  {
    RemoveConcat(a, b, k);
    RemoveAbsent(b, k);
    PutAbsent(b, |b|, k, v);
    RecentEnd(Remove(a, k) + b[..1], b[1..] + [(k, v)], |b|);
    Regroup(Remove(a, k), b, [(k, v)]);
  }

  /** Putting into the recent end is taking the recent end of a put into the whole. */
  lemma PutCommutesWithRecent<K, V>(s: Entries<K, V>, n: nat, k: K, v: V)
    requires NoDup(s) && n > 0
    ensures Put(Recent(s, n), n, k, v) == Recent(Remove(s, k) + [(k, v)], n)
  {
    if |s| > n {
      var a, b := s[..|s| - n], s[|s| - n..];
      assert s == a + b;
      if i :| 0 <= i < |b| && b[i].0 == k { PutAtEndPresent(a, b, i, v); } else { PutAtEndAbsent(a, b, k, v); }
    }
  }

  /** The entries of an unbounded cache after the puts of `ops`: each key once, in order of last put. */
  function Unbounded<K(==), V>(ops: seq<(K, V)>): Entries<K, V> {
    if ops == [] then []
    else var e := ops[|ops| - 1]; Remove(Unbounded(ops[..|ops| - 1]), e.0) + [e]
  }

  function Bounded<K(==), V>(n: nat, ops: seq<(K, V)>): Entries<K, V> {
    if ops == [] then []
    else var e := ops[|ops| - 1]; Put(Bounded(n, ops[..|ops| - 1]), n, e.0, e.1)
  }

  lemma RemoveNoDup<K, V>(s: Entries<K, V>, k: K, v: V)
    requires NoDup(s)
    ensures NoDup(Remove(s, k) + [(k, v)])
  {
    var at := RemoveKeeps(s, k);
    var t := Remove(s, k);
    forall i, j | 0 <= i < j < |t|
      ensures t[i].0 != t[j].0
    {
      assert s[at[i]] == t[i] && s[at[j]] == t[j];
    }
  }

  /** An LRU of size n holds exactly the n keys put most recently, with their last values. */
  lemma {:induction false} BoundedIsRecentEnd<K, V>(n: nat, ops: seq<(K, V)>)
    requires n > 0
    ensures Bounded(n, ops) == Recent(Unbounded(ops), n) && NoDup(Unbounded(ops))
  {
    if ops != [] {
      var e, before := ops[|ops| - 1], ops[..|ops| - 1];
      BoundedIsRecentEnd(n, before);
      RemoveNoDup(Unbounded(before), e.0, e.1);
      PutCommutesWithRecent(Unbounded(before), n, e.0, e.1);
    }
  }
}
