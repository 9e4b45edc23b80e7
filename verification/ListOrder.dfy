/** What the list of database/linkeddb/linkeddb.go holds after any run of Put and Delete, and in which order. */
module ListOrder {
  import opened Options
  import opened LinkedList

  /** The value last put under the key, unless it has been deleted since. */
  function Stored<K(==), V>(calls: seq<Call<K, V>>, k: K): Option<V> {
    if calls == [] then None
    else
      var call := calls[|calls| - 1];
      if call.key != k then Stored(calls[..|calls| - 1], k) else if call.PutCall? then Some(call.value) else None
  }

  /** When the key came in: the number of calls up to and including the put that found it missing. */
  function Since<K(==), V>(calls: seq<Call<K, V>>, k: K): nat {
    if calls == [] then 0
    else
      var before, call := calls[..|calls| - 1], calls[|calls| - 1];
      if call.key == k && call.PutCall? && Stored(before, k).None? then |calls| else Since(before, k)
  }

  lemma {:induction false} SinceBound<K, V>(calls: seq<Call<K, V>>, k: K)
    ensures Since(calls, k) <= |calls|
  {
    if calls != [] { SinceBound(calls[..|calls| - 1], k); }
  }

  /** The stored keys with their values, the one that came in last in front. */
  ghost predicate NewestFirst<K(!new), V>(calls: seq<Call<K, V>>, l: List<K, V>) {
    && (forall i :: 0 <= i < |l| ==> Stored(calls, l[i].0) == Some(l[i].1))
    && (forall k :: Stored(calls, k).Some? ==> HasKey(l, k))
    && (forall i, j :: 0 <= i < j < |l| ==> Since(calls, l[i].0) > Since(calls, l[j].0))
  }

  lemma PutNewFirst<K(!new), V>(calls: seq<Call<K, V>>, l: List<K, V>, k: K, v: V)
    requires NewestFirst(calls, l) && !HasKey(l, k)
    ensures NewestFirst(calls + [PutCall(k, v)], [(k, v)] + l)
  {
    var calls', l' := calls + [PutCall(k, v)], [(k, v)] + l;
    assert calls'[..|calls|] == calls;
    assert Stored(calls, k).None?;
    forall i, j | 0 <= i < j < |l'|
      ensures Since(calls', l'[i].0) > Since(calls', l'[j].0)
    {
      assert l'[j] == l[j - 1];
      SinceBound(calls, l[j - 1].0);
      if i > 0 { assert l'[i] == l[i - 1]; }
    }
    forall x | Stored(calls', x).Some?
      ensures HasKey(l', x)
    {
      if x == k {
        assert l'[0].0 == k;
      } else {
        assert Stored(calls, x).Some? && HasKey(l, x);
        var i :| 0 <= i < |l| && l[i].0 == x;
        assert l'[i + 1].0 == x;
      }
    }
  }

  lemma PutOldFirst<K(!new), V>(calls: seq<Call<K, V>>, l: List<K, V>, i: nat, v: V)
    requires NewestFirst(calls, l) && NoDup(l) && i < |l|
    ensures NewestFirst(calls + [PutCall(l[i].0, v)], l[i := (l[i].0, v)])
  {
    var calls', l' := calls + [PutCall(l[i].0, v)], l[i := (l[i].0, v)];
    assert calls'[..|calls|] == calls;
    assert forall j :: 0 <= j < |l| ==> l'[j].0 == l[j].0 && Since(calls', l[j].0) == Since(calls, l[j].0);
    forall x | Stored(calls', x).Some?
      ensures HasKey(l', x)
    {
      assert x != l[i].0 ==> Stored(calls, x).Some?;
      assert HasKey(l, x);
      var j :| 0 <= j < |l| && l[j].0 == x;
      assert l'[j].0 == x;
    }
  }

  lemma DeleteFirst<K(!new), V>(calls: seq<Call<K, V>>, l: List<K, V>, k: K, l': List<K, V>, i: nat)
    requires NewestFirst(calls, l) && NoDup(l) && i < |l| && l[i].0 == k && l' == l[..i] + l[i + 1..]
    ensures NewestFirst(calls + [DeleteCall(k)], l')
  {
    var calls' := calls + [DeleteCall(k)];
    assert calls'[..|calls|] == calls;
    forall j | 0 <= j < |l'|
      ensures Stored(calls', l'[j].0) == Some(l'[j].1)
    {
      assert l'[j] == l[if j < i then j else j + 1];
    }
    forall a, b | 0 <= a < b < |l'|
      ensures Since(calls', l'[a].0) > Since(calls', l'[b].0)
    {
      assert l'[a] == l[if a < i then a else a + 1] && l'[b] == l[if b < i then b else b + 1];
    }
    forall x | Stored(calls', x).Some?
      ensures HasKey(l', x)
    {
      assert Stored(calls, x).Some? && HasKey(l, x);
      var j :| 0 <= j < |l| && l[j].0 == x;
      assert l'[if j < i then j else j - 1].0 == x;
    }
  }

  lemma DeleteNone<K(!new), V>(calls: seq<Call<K, V>>, l: List<K, V>, k: K)
    requires NewestFirst(calls, l) && !HasKey(l, k)
    ensures NewestFirst(calls + [DeleteCall(k)], l)
  {
    assert (calls + [DeleteCall(k)])[..|calls|] == calls;
  }

  /** After any run the list has exactly the keys put and not deleted since, with the values last put, in the order
      in which they came in, newest first; a key that is put again keeps its place. */
  lemma {:induction false} RunIsNewestFirst<K(!new), V>(calls: seq<Call<K, V>>)
    ensures NewestFirst(calls, RunList(calls)) && NoDup(RunList(calls))
  {
    RunRefines(calls);
    if calls != [] {
      var n := |calls| - 1;
      var l, call := RunList(calls[..n]), calls[n];
      RunIsNewestFirst(calls[..n]);
      assert calls == calls[..n] + [call];
      if i :| 0 <= i < |l| && l[i].0 == call.key {
        if call.PutCall? {
          UpdateAt(l, i, call.value);
          PutOldFirst(calls[..n], l, i, call.value);
        } else {
          DeleteAt(l, i);
          DeleteFirst(calls[..n], l, call.key, DeleteList(l, call.key), i);
        }
      } else if call.PutCall? {
        PutNewFirst(calls[..n], l, call.key, call.value);
      } else {
        if l != [] { UpdateAbsent(l, call.key, l[0].1); }
        DeleteNone(calls[..n], l, call.key);
      }
    }
  }
}
