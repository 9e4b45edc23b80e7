/** Paging over the trait index: getKeys and appendTraitKeys of chains/atomic/state.go, and the
client that keeps calling with the last trait and key until a page comes back short. */
module Pagination {
  import opened ByteStrings
  import AtomicState
  import LinkedList
  import opened Faults

  /*
  Before it walks a list, appendTraitKeys looks up where to start. A failed lookup is not reported: the
  walk then starts at the head of the list. `failed` holds the positions, in the sorted traits, of the
  visits whose lookup failed.
  */

  type Key = Bytes
  type Trait = Bytes

  /** The keys of each trait's list, in iteration order. */
  type Lists = map<Trait, seq<Key>>

  function KeysOf(lists: Lists, t: Trait): seq<Key> {
    if t in lists then lists[t] else []
  }

  predicate Distinct(s: seq<Key>) {
    forall i, j :: 0 <= i < j < |s| ==> s[i] != s[j]
  }

  /** What linkeddb guarantees of its lists. */
  ghost predicate ListsOk(lists: Lists) {
    forall t :: Distinct(KeysOf(lists, t))
  }

  /** Where an iterator started at `k` begins: at `k` if it is in the list, else at the head. */
  function StartIndex(l: seq<Key>, k: Key): (i: nat)
    ensures i <= |l| && (k in l ==> i < |l| && l[i] == k) && (k !in l ==> i == 0)
  {
    if l == [] || k !in l || l[0] == k then 0 else 1 + StartIndex(l[1..], k)
  }

  /** Where the walk begins, given whether the lookup of the start succeeded. */
  function From(l: seq<Key>, start: Key, looked: bool): (i: nat)
    ensures i <= |l|
  {
    if looked then StartIndex(l, start) else 0
  }

  function StartOf(t: Trait, startTrait: Trait, startKey: Key): Key {
    if t == startTrait then startKey else []
  }

  // ---- one trait ----------------------------------------------------------------------------

  /** The keys collected, the room left and the number of list entries visited. */
  datatype Walked = Walked(keys: seq<Key>, limit: int, visited: nat)

  /** The loop of appendTraitKeys over `l`: stop when the room is used up, skip keys seen before. */
  function Walk(l: seq<Key>, keys: seq<Key>, limit: int): Walked {
    if l == [] || limit <= 0 then Walked(keys, limit, 0)
    else
      var w := if l[0] in keys then Walk(l[1..], keys, limit) else Walk(l[1..], keys + [l[0]], limit - 1);
      w.(visited := w.visited + 1)
  }

  function KeysAfterFirst(l: seq<Key>, keys: seq<Key>): seq<Key>
    requires l != []
  {
    if l[0] in keys then keys else keys + [l[0]]
  }

  lemma {:induction false} WalkFacts(l: seq<Key>, keys: seq<Key>, limit: int)
    requires Distinct(keys) && limit >= 0
    ensures var w := Walk(l, keys, limit);
            && 0 <= w.limit <= limit && w.visited <= |l|
            && keys <= w.keys && |w.keys| == |keys| + (limit - w.limit) && Distinct(w.keys)
            && (w.limit > 0 ==> w.visited == |l|) && limit - w.limit <= w.visited
  {
    if l != [] && limit > 0 {
      WalkFacts(l[1..], KeysAfterFirst(l, keys), if l[0] in keys then limit else limit - 1);
    }
  }

  lemma {:induction false} WalkCollects(l: seq<Key>, keys: seq<Key>, limit: int, k: Key)
    requires Distinct(keys) && limit >= 0 && Walk(l, keys, limit).visited <= |l|
    ensures var w := Walk(l, keys, limit);
            k in w.keys <==> k in keys || k in l[..w.visited]
  {
    if l != [] && limit > 0 {
      var keys1, limit1 := KeysAfterFirst(l, keys), if l[0] in keys then limit else limit - 1;
      var w := Walk(l, keys, limit);
      WalkFacts(l[1..], keys1, limit1);
      WalkCollects(l[1..], keys1, limit1, k);
      assert l[..w.visited] == [l[0]] + l[1..][..w.visited - 1];
    }
  }

  /** The page fills up on a key that was not in it. */
  lemma {:induction false} WalkEndsOnNew(l: seq<Key>, keys: seq<Key>, limit: int)
    requires Distinct(keys) && limit > 0 && Walk(l, keys, limit).limit == 0
    ensures var w := Walk(l, keys, limit);
            0 < w.visited <= |l| && l[w.visited - 1] !in keys && w.keys != [] && w.keys[|w.keys| - 1] == l[w.visited - 1]
  {
    var keys1, limit1 := KeysAfterFirst(l, keys), if l[0] in keys then limit else limit - 1;
    WalkFacts(l[1..], keys1, limit1);
    if limit1 > 0 {
      WalkEndsOnNew(l[1..], keys1, limit1);
      var w1 := Walk(l[1..], keys1, limit1);
      assert l[1..][w1.visited - 1] == l[w1.visited];
    }
  }

  // ---- one page -----------------------------------------------------------------------------

  datatype Cursor = Cursor(keys: seq<Key>, limit: int, lastTrait: Trait, lastKey: Key, done: bool)

  function Visit(lists: Lists, t: Trait, startTrait: Trait, startKey: Key, looked: bool, c: Cursor): Cursor {
    if Less(t, startTrait) then c
    else
      var l, start := KeysOf(lists, t), StartOf(t, startTrait, startKey);
      var from := From(l, start, looked);
      var w := Walk(l[from..], c.keys, c.limit);
      var last := if 0 < w.visited <= |l| - from then l[from + w.visited - 1] else start;
      Cursor(w.keys, w.limit, t, last, w.limit == 0)
  }

  /** The loop of getKeys over sorted traits, left as soon as the room is used up. */
  function Collect(lists: Lists, ts: seq<Trait>, startTrait: Trait, startKey: Key, failed: set<nat>, limit: int): Cursor {
    if ts == [] then Cursor([], limit, startTrait, startKey, false)
    else
      var n := |ts| - 1;
      var c := Collect(lists, ts[..n], startTrait, startKey, failed, limit);
      if c.done then c else Visit(lists, ts[n], startTrait, startKey, n !in failed, c)
  }

  /** The page when no lookup fails. */
  function GetKeys(lists: Lists, traits: seq<Trait>, startTrait: Trait, startKey: Key, limit: int): Cursor {
    Collect(lists, Sort(traits), startTrait, startKey, {}, limit)
  }

  /** Entry (t, k) of the index lies at or after the start (T, K): what is reached from there. */
  predicate Ahead(lists: Lists, T: Trait, K: Key, t: Trait, k: Key) {
    var l := KeysOf(lists, t);
    !Less(t, T) && k in l && StartIndex(l, k) >= StartIndex(l, StartOf(t, T, K))
  }

  lemma {:induction false} IndexOf(l: seq<Key>, i: nat)
    requires Distinct(l) && i < |l|
    ensures StartIndex(l, l[i]) == i
  {
    var j := StartIndex(l, l[i]);
    assert l[j] == l[i];
  }

  lemma SuffixMember(l: seq<Key>, from: nat, k: Key)
    requires Distinct(l) && from <= |l|
    ensures k in l[from..] <==> k in l && StartIndex(l, k) >= from
  {
    if k in l {
      var i := StartIndex(l, k);
      if i >= from { assert l[from..][i - from] == k; }
    }
    if k in l[from..] {
      var j :| 0 <= j < |l[from..]| && l[from..][j] == k;
      IndexOf(l, from + j);
    }
  }

  /** The cursor of a page that is still open after visiting the traits in `seen`. */
  ghost predicate Covers(lists: Lists, seen: seq<Trait>, T: Trait, K: Key, c: Cursor) {
    forall t, k :: t in seen && Ahead(lists, T, K, t, k) ==> k in c.keys
  }

  /** Every collected key is listed under some trait visited, ahead of the start unless a lookup failed. */
  ghost predicate Sound(lists: Lists, seen: seq<Trait>, T: Trait, K: Key, failed: set<nat>, c: Cursor) {
    forall k :: k in c.keys ==> exists t :: t in seen && k in KeysOf(lists, t) && (failed == {} ==> Ahead(lists, T, K, t, k))
  }

  ghost predicate Counts(c: Cursor, limit: int) {
    Distinct(c.keys) && 0 <= c.limit && |c.keys| == limit - c.limit && (c.done <==> c.limit == 0)
  }

  lemma VisitCounts(lists: Lists, t: Trait, T: Trait, K: Key, looked: bool, c: Cursor, limit: int)
    requires Counts(c, limit) && !c.done
    ensures Counts(Visit(lists, t, T, K, looked, c), limit) && c.keys <= Visit(lists, t, T, K, looked, c).keys
  {
    if !Less(t, T) {
      var l := KeysOf(lists, t);
      WalkFacts(l[From(l, StartOf(t, T, K), looked)..], c.keys, c.limit);
    }
  }

  lemma VisitCollects(lists: Lists, t: Trait, T: Trait, K: Key, looked: bool, c: Cursor, limit: int, k: Key)
    requires ListsOk(lists) && Counts(c, limit) && !c.done
    ensures var c' := Visit(lists, t, T, K, looked, c);
            && (k in c.keys ==> k in c'.keys)
            && (k in c'.keys ==> k in c.keys || (k in KeysOf(lists, t) && (looked ==> Ahead(lists, T, K, t, k))))
            && (!c'.done && Ahead(lists, T, K, t, k) ==> k in c'.keys)
  {
    if !Less(t, T) {
      var l := KeysOf(lists, t);
      var from := From(l, StartOf(t, T, K), looked);
      var s := l[from..];
      assert Distinct(l);
      SuffixMember(l, from, k);
      WalkFacts(s, c.keys, c.limit);
      WalkCollects(s, c.keys, c.limit, k);
      var w := Walk(s, c.keys, c.limit);
      if k in s[..w.visited] { assert k in s; }
      if w.limit > 0 { assert s[..w.visited] == s; }
    }
  }

  /** A visit that fills the page stops on a new key. */
  lemma VisitStops(lists: Lists, t: Trait, T: Trait, K: Key, looked: bool, c: Cursor, limit: int)
    requires ListsOk(lists) && Counts(c, limit) && !c.done && Visit(lists, t, T, K, looked, c).done
    ensures var c' := Visit(lists, t, T, K, looked, c);
            && !Less(t, T) && c'.lastTrait == t && c'.lastKey in KeysOf(lists, t) && c'.lastKey !in c.keys
            && (looked ==> Ahead(lists, T, K, t, c'.lastKey))
    ensures var l := KeysOf(lists, t);
            var from := From(l, StartOf(t, T, K), looked);
            var w := Walk(l[from..], c.keys, c.limit);
            && 0 < w.visited <= |l| - from && Distinct(l)
            && StartIndex(l, Visit(lists, t, T, K, looked, c).lastKey) == from + w.visited - 1
  {
    var l := KeysOf(lists, t);
    var from := From(l, StartOf(t, T, K), looked);
    var s := l[from..];
    var w, c' := Walk(s, c.keys, c.limit), Visit(lists, t, T, K, looked, c);
    WalkEndsOnNew(s, c.keys, c.limit);
    assert s[w.visited - 1] == l[from + w.visited - 1] == c'.lastKey;
    assert Distinct(l);
    IndexOf(l, from + w.visited - 1);
  }

  /** What a filling visit leaves lies ahead of the key it stopped on. */
  lemma VisitFills(lists: Lists, t: Trait, T: Trait, K: Key, looked: bool, c: Cursor, limit: int, k: Key)
    requires ListsOk(lists) && Counts(c, limit) && !c.done && Visit(lists, t, T, K, looked, c).done
    ensures var c' := Visit(lists, t, T, K, looked, c);
            && !Less(t, T) && c'.lastTrait == t && c'.lastKey in KeysOf(lists, t)
            && (Ahead(lists, T, K, t, k) ==> k in c'.keys || Ahead(lists, t, c'.lastKey, t, k))
            && (looked && Ahead(lists, t, c'.lastKey, t, k) ==> Ahead(lists, T, K, t, k))
  {
    var l := KeysOf(lists, t);
    var from := From(l, StartOf(t, T, K), looked);
    var w := Walk(l[from..], c.keys, c.limit);
    VisitStops(lists, t, T, K, looked, c, limit);
    WalkCollects(l[from..], c.keys, c.limit, k);
    Irreflexive(t);
    SuffixMember(l, from, k);
    if k in l[from..] && k !in l[from..][..w.visited] { NotInPrefix(l, from, w.visited, k); }
  }

  lemma NotInPrefix(l: seq<Key>, from: nat, m: nat, k: Key)
    requires Distinct(l) && from + m <= |l| && k in l[from..] && k !in l[from..][..m]
    ensures StartIndex(l, k) >= from + m
  {
    SuffixMember(l, from, k);
    assert forall j :: 0 <= j < m ==> l[from..][..m][j] == l[from + j];
  }

  lemma {:induction false} CollectCounts(lists: Lists, ts: seq<Trait>, T: Trait, K: Key, failed: set<nat>, limit: int)
    requires limit > 0
    ensures Counts(Collect(lists, ts, T, K, failed, limit), limit)
  {
    if ts != [] {
      var n := |ts| - 1;
      CollectCounts(lists, ts[..n], T, K, failed, limit);
      var c := Collect(lists, ts[..n], T, K, failed, limit);
      if !c.done { VisitCounts(lists, ts[n], T, K, n !in failed, c, limit); }
    }
  }

  /** Every key of a page is listed under a trait visited, and ahead of its start unless a lookup
      failed; an open page has all keys ahead of its start. */
  lemma {:induction false} CollectCollects(lists: Lists, ts: seq<Trait>, T: Trait, K: Key, failed: set<nat>, limit: int)
    requires ListsOk(lists) && limit > 0
    ensures var c := Collect(lists, ts, T, K, failed, limit);
            Sound(lists, ts, T, K, failed, c) && (!c.done ==> Covers(lists, ts, T, K, c))
  {
    if ts != [] {
      var n := |ts| - 1;
      CollectCollects(lists, ts[..n], T, K, failed, limit);
      CollectCounts(lists, ts[..n], T, K, failed, limit);
      var c, c' := Collect(lists, ts[..n], T, K, failed, limit), Collect(lists, ts, T, K, failed, limit);
      assert ts == ts[..n] + [ts[n]];
      if !c.done {
        forall k
          ensures k in c'.keys ==> exists t :: t in ts && k in KeysOf(lists, t) && (failed == {} ==> Ahead(lists, T, K, t, k))
        {
          VisitCollects(lists, ts[n], T, K, n !in failed, c, limit, k);
        }
        forall t, k | t in ts && Ahead(lists, T, K, t, k)
          ensures !c'.done ==> k in c'.keys
        {
          VisitCollects(lists, ts[n], T, K, n !in failed, c, limit, k);
        }
      }
    }
  }

  /** A full page has everything ahead of its start that is not ahead of its end. */
  ghost predicate Advances(lists: Lists, ts: seq<Trait>, T: Trait, K: Key, failed: set<nat>, c: Cursor) {
    && c.lastTrait in ts && c.lastKey in KeysOf(lists, c.lastTrait)
    && (forall t, k :: t in ts && Ahead(lists, T, K, t, k) ==> k in c.keys || Ahead(lists, c.lastTrait, c.lastKey, t, k))
    && (failed == {} ==>
          forall t, k :: t in ts && Ahead(lists, c.lastTrait, c.lastKey, t, k) ==> Ahead(lists, T, K, t, k))
  }

  /** The visit that filled the page, at position n of the sorted traits. */
  ghost predicate FilledAt(lists: Lists, ts: seq<Trait>, T: Trait, K: Key, failed: set<nat>, limit: int, n: nat) {
    n < |ts| && !Collect(lists, ts[..n], T, K, failed, limit).done &&
    Collect(lists, ts, T, K, failed, limit) ==
      Visit(lists, ts[n], T, K, n !in failed, Collect(lists, ts[..n], T, K, failed, limit))
  }

  lemma {:induction false} FindFilling(lists: Lists, ts: seq<Trait>, T: Trait, K: Key, failed: set<nat>, limit: int) returns (n: nat)
    requires Collect(lists, ts, T, K, failed, limit).done
    ensures FilledAt(lists, ts, T, K, failed, limit, n)
  {
    n := |ts| - 1;
    if Collect(lists, ts[..n], T, K, failed, limit).done {
      var m := FindFilling(lists, ts[..n], T, K, failed, limit);
      assert ts[..n][..m] == ts[..m];
      n := m;
    }
  }

  /** How the traits of a sorted sequence compare to the one at n. */
  lemma AroundFilling(ts: seq<Trait>, n: nat, t: Trait)
    requires Sorted(ts) && n < |ts| && t in ts
    ensures t == ts[n] || (Less(ts[n], t) && !Less(t, ts[n])) || (t in ts[..n] && Less(t, ts[n]))
  {
    var i :| 0 <= i < |ts| && ts[i] == t;
    if i < n { assert ts[..n][i] == t; }
    if Less(ts[n], t) { Asymmetric(ts[n], t); }
  }

  lemma FullPageAdvances(lists: Lists, ts: seq<Trait>, T: Trait, K: Key, failed: set<nat>, limit: int)
    requires ListsOk(lists) && Sorted(ts) && limit > 0 && Collect(lists, ts, T, K, failed, limit).done
    ensures Advances(lists, ts, T, K, failed, Collect(lists, ts, T, K, failed, limit))
  {
    var n := FindFilling(lists, ts, T, K, failed, limit);
    var c, c' := Collect(lists, ts[..n], T, K, failed, limit), Collect(lists, ts, T, K, failed, limit);
    CollectCounts(lists, ts[..n], T, K, failed, limit);
    CollectCollects(lists, ts[..n], T, K, failed, limit);
    VisitFills(lists, ts[n], T, K, n !in failed, c, limit, K);
    forall t, k | t in ts
      ensures Ahead(lists, T, K, t, k) ==> k in c'.keys || Ahead(lists, c'.lastTrait, c'.lastKey, t, k)
      ensures failed == {} && Ahead(lists, c'.lastTrait, c'.lastKey, t, k) ==> Ahead(lists, T, K, t, k)
    {
      FilledPair(lists, ts, T, K, failed, limit, n, t, k);
    }
  }

  lemma FilledPair(lists: Lists, ts: seq<Trait>, T: Trait, K: Key, failed: set<nat>, limit: int, n: nat, t: Trait, k: Key)
    requires ListsOk(lists) && Sorted(ts) && limit > 0 && FilledAt(lists, ts, T, K, failed, limit, n) && t in ts
    requires Counts(Collect(lists, ts[..n], T, K, failed, limit), limit)
    requires Covers(lists, ts[..n], T, K, Collect(lists, ts[..n], T, K, failed, limit))
    requires Collect(lists, ts, T, K, failed, limit).done
    ensures var c' := Collect(lists, ts, T, K, failed, limit);
            && (Ahead(lists, T, K, t, k) ==> k in c'.keys || Ahead(lists, c'.lastTrait, c'.lastKey, t, k))
            && (failed == {} && Ahead(lists, c'.lastTrait, c'.lastKey, t, k) ==> Ahead(lists, T, K, t, k))
  {
    var c := Collect(lists, ts[..n], T, K, failed, limit);
    VisitFills(lists, ts[n], T, K, n !in failed, c, limit, k);
    VisitCollects(lists, ts[n], T, K, n !in failed, c, limit, k);
    AroundFilling(ts, n, t);
    if Less(ts[n], t) { LaterTrait(T, ts[n], t); }
  }

  lemma LaterTrait(T: Trait, u: Trait, t: Trait)
    requires !Less(u, T) && Less(u, t)
    ensures !Less(t, T) && t != T && t != u
  {
    Irreflexive(u);
    if Less(t, T) { Transitive(u, t, T); }
  }

  // ---- a failed lookup ----------------------------------------------------------------------

  /** A failed lookup does no harm to a visit that is not made or has no room, or that finds every key before
      its start in the page already. */
  predicate Harmless(lists: Lists, t: Trait, T: Trait, K: Key, c: Cursor) {
    var l := KeysOf(lists, t);
    Less(t, T) || c.limit <= 0 || forall k :: k in l[..StartIndex(l, StartOf(t, T, K))] ==> k in c.keys
  }

  /** Keys that are in the page already are walked over. */
  lemma {:induction false} WalkSkips(a: seq<Key>, b: seq<Key>, keys: seq<Key>, limit: int)
    requires limit > 0 && forall k :: k in a ==> k in keys
    ensures var w := Walk(b, keys, limit); Walk(a + b, keys, limit) == w.(visited := w.visited + |a|)
  {
    if a == [] {
      assert a + b == b;
    } else {
      WalkSkips(a[1..], b, keys, limit);
      assert a[0] in keys;
      assert (a + b)[1..] == a[1..] + b;
    }
  }

  lemma {:induction false} WalkKeys(l: seq<Key>, keys: seq<Key>, limit: int, k: Key)
    ensures var w := Walk(l, keys, limit);
            && w.visited <= |l| && (l != [] && limit > 0 ==> w.visited > 0)
            && keys <= w.keys && (k in w.keys ==> k in keys || k in l)
  {
    if l != [] && limit > 0 {
      WalkKeys(l[1..], KeysAfterFirst(l, keys), if l[0] in keys then limit else limit - 1, k);
    }
  }

  /** Where the first key of `l` is that is not in the page yet. */
  lemma FirstNew(l: seq<Key>, keys: seq<Key>, k: Key) returns (j: nat)
    requires k in l && k !in keys
    ensures j < |l| && l[j] !in keys && forall x :: x in l[..j] ==> x in keys
  {
    j := 0;
    while l[j] in keys
      invariant j < |l| && k in l[j..] && forall x :: x in l[..j] ==> x in keys
      decreases |l| - j
    {
      assert l[..j + 1] == l[..j] + [l[j]] && l[j..] == [l[j]] + l[j + 1..];
      j := j + 1;
    }
  }

  /** A walk goes on with the first key that is not in the page yet. */
  lemma WalkGoesOn(l: seq<Key>, keys: seq<Key>, limit: int, j: nat)
    requires limit > 0 && j < |l| && l[j] !in keys && forall x :: x in l[..j] ==> x in keys
    ensures keys + [l[j]] <= Walk(l, keys, limit).keys
  {
    assert l == l[..j] + l[j..];
    WalkSkips(l[..j], l[j..], keys, limit);
    WalkKeys(l[j..][1..], keys + [l[j]], limit - 1, l[j]);
  }

  /** Whatever the page so far, a visit whose lookup fails is the visit asked for exactly if the failure is
      harmless; if it is not, then the page goes on with another key, should there be a new one to go on with. */
  lemma VisitFailed(lists: Lists, t: Trait, T: Trait, K: Key, c: Cursor)
    requires ListsOk(lists)
    ensures Visit(lists, t, T, K, false, c) == Visit(lists, t, T, K, true, c) <==> Harmless(lists, t, T, K, c)
    ensures var l := KeysOf(lists, t);
            !Harmless(lists, t, T, K, c) && (exists k :: k in l[StartIndex(l, StartOf(t, T, K))..] && k !in c.keys) ==>
              exists k, k' :: k != k' && c.keys + [k] <= Visit(lists, t, T, K, false, c).keys
                              && c.keys + [k'] <= Visit(lists, t, T, K, true, c).keys
  {
    if Harmless(lists, t, T, K, c) { HarmlessVisit(lists, t, T, K, c); } else { HarmfulVisit(lists, t, T, K, c); }
  }

  /** The first key before the start that is not in the page, where the visit asked for does not come. */
  lemma HarmfulVisit(lists: Lists, t: Trait, T: Trait, K: Key, c: Cursor)
    requires ListsOk(lists) && !Harmless(lists, t, T, K, c)
    ensures Visit(lists, t, T, K, false, c) != Visit(lists, t, T, K, true, c)
    ensures var l := KeysOf(lists, t);
            (exists k :: k in l[StartIndex(l, StartOf(t, T, K))..] && k !in c.keys) ==>
              exists k, k' :: k != k' && c.keys + [k] <= Visit(lists, t, T, K, false, c).keys
                              && c.keys + [k'] <= Visit(lists, t, T, K, true, c).keys
  {
    var l := KeysOf(lists, t);
    var from := StartIndex(l, StartOf(t, T, K));
    assert l[0..] == l && Distinct(l);
    var k :| k in l[..from] && k !in c.keys;
    var j := NewBefore(l, from, c.keys, k);
    WalkGoesOn(l, c.keys, c.limit, j);
    SuffixMember(l, from, l[j]);
    IndexOf(l, j);
    WalkKeys(l[from..], c.keys, c.limit, l[j]);
    assert l[j] == (c.keys + [l[j]])[|c.keys|];
    if k' :| k' in l[from..] && k' !in c.keys {
      var m := FirstNew(l[from..], c.keys, k');
      WalkGoesOn(l[from..], c.keys, c.limit, m);
    }
  }

  lemma NewBefore(l: seq<Key>, from: nat, keys: seq<Key>, k: Key) returns (j: nat)
    requires from <= |l| && k in l[..from] && k !in keys
    ensures j < from && l[j] !in keys && forall x :: x in l[..j] ==> x in keys
  {
    j := FirstNew(l[..from], keys, k);
    assert l[..from][..j] == l[..j];
  }

  lemma HarmlessVisit(lists: Lists, t: Trait, T: Trait, K: Key, c: Cursor)
    requires Harmless(lists, t, T, K, c)
    ensures Visit(lists, t, T, K, false, c) == Visit(lists, t, T, K, true, c)
  {
    var l := KeysOf(lists, t);
    var from := StartIndex(l, StartOf(t, T, K));
    assert l[0..] == l;
    if !Less(t, T) && c.limit > 0 && from > 0 {
      assert l == l[..from] + l[from..];
      WalkSkips(l[..from], l[from..], c.keys, c.limit);
      WalkKeys(l[from..], c.keys, c.limit, []);
      assert StartOf(t, T, K) in l;
    }
  }

  /** One more failed lookup, at any visit of any page: if it is harmless there then the page is the same to
      its end, and if it is not, and there was a new key to go on with, then the pages differ. */
  lemma PageFailed(lists: Lists, ts: seq<Trait>, T: Trait, K: Key, failed: set<nat>, i: nat, limit: int)
    requires ListsOk(lists) && i < |ts| && i !in failed
    ensures var c, l := Collect(lists, ts[..i], T, K, failed, limit), KeysOf(lists, ts[i]);
            var same := Collect(lists, ts, T, K, failed + {i}, limit) == Collect(lists, ts, T, K, failed, limit);
            && (c.done || Harmless(lists, ts[i], T, K, c) ==> same)
            && (same && (exists k :: k in l[StartIndex(l, StartOf(ts[i], T, K))..] && k !in c.keys) ==>
                  c.done || Harmless(lists, ts[i], T, K, c))
  {
    var c, l := Collect(lists, ts[..i], T, K, failed, limit), KeysOf(lists, ts[i]);
    LaterFailures(lists, ts[..i], T, K, failed, {i}, limit);
    CollectOn(lists, ts, i, T, K, failed, limit);
    CollectOn(lists, ts, i, T, K, failed + {i}, limit);
    VisitFailed(lists, ts[i], T, K, c);
    if c.done || Harmless(lists, ts[i], T, K, c) {
      SameAfter(lists, ts, T, K, failed, i, limit);
    } else if exists k :: k in l[StartIndex(l, StartOf(ts[i], T, K))..] && k !in c.keys {
      if limit <= 0 { NoRoom(lists, ts[..i], T, K, failed, limit); }
      var k, k' :| k != k' && c.keys + [k] <= Visit(lists, ts[i], T, K, false, c).keys
                   && c.keys + [k'] <= Visit(lists, ts[i], T, K, true, c).keys;
      ApartAfter(lists, ts, T, K, failed, i, limit, c.keys, k, k');
    }
  }

  /** Pages that part after some visit stay apart. */
  lemma ApartAfter(lists: Lists, ts: seq<Trait>, T: Trait, K: Key, failed: set<nat>, i: nat, limit: int, keys: seq<Key>, k: Key, k': Key)
    requires i < |ts| && limit > 0 && k != k'
    requires keys + [k] <= Collect(lists, ts[..i + 1], T, K, failed + {i}, limit).keys
    requires keys + [k'] <= Collect(lists, ts[..i + 1], T, K, failed, limit).keys
    ensures Collect(lists, ts, T, K, failed + {i}, limit) != Collect(lists, ts, T, K, failed, limit)
  {
    KeysGrow(lists, ts, T, K, failed, limit, i + 1);
    KeysGrow(lists, ts, T, K, failed + {i}, limit, i + 1);
    assert (keys + [k])[|keys|] == k && (keys + [k'])[|keys|] == k';
  }

  /** At the first visit of the start trait there is always a new key to go on with: the page is the same
      exactly if the start key is not in the list, or is its first key, or there is no room. */
  lemma FailedLookup(lists: Lists, ts: seq<Trait>, T: Trait, K: Key, i: nat, limit: int)
    requires ListsOk(lists) && Sorted(ts) && i < |ts| && ts[i] == T && T !in ts[..i]
    ensures var l := KeysOf(lists, T);
            Collect(lists, ts, T, K, {i}, limit) == Collect(lists, ts, T, K, {}, limit)
            <==> K !in l || l[0] == K || limit <= 0
  {
    var l := KeysOf(lists, T);
    forall j | 0 <= j < i
      ensures Less(ts[..i][j], T)
    {
      assert ts[..i][j] == ts[j];
    }
    BeforeStart(lists, ts[..i], T, K, {}, limit);
    var c := Cursor([], limit, T, K, false);
    StartHarmless(lists, T, K, c);
    assert {} + {i} == {i};
    PageFailed(lists, ts, T, K, {}, i, limit);
  }

  lemma StartHarmless(lists: Lists, T: Trait, K: Key, c: Cursor)
    requires c.keys == []
    ensures var l := KeysOf(lists, T);
            && (Harmless(lists, T, T, K, c) <==> K !in l || l[0] == K || c.limit <= 0)
            && (K in l ==> K in l[StartIndex(l, K)..])
  {
    var l := KeysOf(lists, T);
    var from := StartIndex(l, K);
    Irreflexive(T);
    if K in l { assert l[from..][0] == K; }
    if K in l && l[0] != K {
      assert l[..from][0] == l[0];
      assert l[0] in l[..StartIndex(l, StartOf(T, T, K))] && l[0] !in c.keys;
    } else {
      assert l[..from] == [];
    }
  }

  /** Without a new key to go on with, a page can catch up: when three traits list [], then k and [], and then
      k, the failed lookup under the second one finds k earlier, and the page is the same. */
  lemma CaughtUp(lists: Lists, t: Trait, u: Trait, v: Trait, k: Key)
    requires Less(t, u) && Less(u, v) && k != []
    requires KeysOf(lists, t) == [[]] && KeysOf(lists, u) == [k, []] && KeysOf(lists, v) == [k]
    ensures var c := Collect(lists, [t], t, [], {}, 3);
            !c.done && !Harmless(lists, u, t, [], c)
    ensures Collect(lists, [t, u, v], t, [], {1}, 3) == Collect(lists, [t, u, v], t, [], {}, 3)
  {
    var c, c2, c2' := CaughtUpVisits(lists, t, u, v, k);
    var ts := [t, u, v];
    assert [t][..0] == [] && [t, u][..1] == [t] && ts[..2] == [t, u];
    assert Collect(lists, [], t, [], {}, 3) == Collect(lists, [], t, [], {1}, 3) == Cursor([], 3, t, [], false);
    assert Collect(lists, [t], t, [], {}, 3) == Collect(lists, [t], t, [], {1}, 3) == c;
    assert Collect(lists, [t, u], t, [], {}, 3) == c2 && Collect(lists, [t, u], t, [], {1}, 3) == c2';
  }

  lemma CaughtUpVisits(lists: Lists, t: Trait, u: Trait, v: Trait, k: Key) returns (c: Cursor, c2: Cursor, c2': Cursor)
    requires Less(t, u) && Less(u, v) && k != []
    requires KeysOf(lists, t) == [[]] && KeysOf(lists, u) == [k, []] && KeysOf(lists, v) == [k]
    ensures !c.done && c == Visit(lists, t, t, [], true, Cursor([], 3, t, [], false)) && !Harmless(lists, u, t, [], c)
    ensures !c2.done && c2 == Visit(lists, u, t, [], true, c)
    ensures !c2'.done && c2' == Visit(lists, u, t, [], false, c)
    ensures Visit(lists, v, t, [], true, c2) == Visit(lists, v, t, [], true, c2')
  {
    Irreflexive(t);
    Transitive(t, u, v);
    if Less(u, t) { Transitive(t, u, t); }
    if Less(v, t) { Transitive(t, v, t); }
    c := Cursor([] + [[]], 2, t, [], false);
    VisitOne(lists, t, t, Cursor([], 3, t, [], false), []);
    VisitTwo(lists, u, t, k, c);
    c2, c2' := Cursor(c.keys, 2, u, [], false), Cursor(c.keys + [k], 1, u, [], false);
    VisitOne(lists, v, t, c2, k);
    VisitOne(lists, v, t, c2', k);
  }

  lemma VisitOne(lists: Lists, t: Trait, T: Trait, c: Cursor, k: Key)
    requires KeysOf(lists, t) == [k] && !Less(t, T) && c.limit > 0
    ensures Visit(lists, t, T, [], true, c)
            == if k in c.keys then Cursor(c.keys, c.limit, t, k, false) else Cursor(c.keys + [k], c.limit - 1, t, k, c.limit == 1)
  {
    assert [k][0..] == [k];
    WalkOne(k, c.keys, c.limit);
  }

  lemma VisitTwo(lists: Lists, t: Trait, T: Trait, k: Key, c: Cursor)
    requires KeysOf(lists, t) == [k, []] && !Less(t, T) && c.limit == 2 && k != [] && k !in c.keys && [] in c.keys
    ensures !Harmless(lists, t, T, [], c)
    ensures Visit(lists, t, T, [], true, c) == Cursor(c.keys, 2, t, [], false)
    ensures Visit(lists, t, T, [], false, c) == Cursor(c.keys + [k], 1, t, [], false)
  {
    var l: seq<Key> := [k, []];
    assert l[1..] == [[]] && StartIndex(l, []) == 1 && k in l[..1] && l[0..] == l;
    WalkOne([], c.keys, 2);
    WalkOne([], c.keys + [k], 1);
  }

  lemma WalkOne(k: Key, keys: seq<Key>, limit: int)
    requires limit > 0
    ensures Walk([k], keys, limit) == if k in keys then Walked(keys, limit, 1) else Walked(keys + [k], limit - 1, 1)
  {
  }

  /** The page from the head starts with the head. */
  lemma FirstCollected(l: seq<Key>, limit: int)
    requires l != [] && limit > 0
    ensures var w := Walk(l, [], limit); w.keys != [] && w.keys[0] == l[0]
  {
    var first := [l[0]];
    assert [] + [l[0]] == first;
    WalkFacts(l[1..], first, limit - 1);
    assert first[0] == l[0];
    assert Walk(l, [], limit).keys == Walk(l[1..], first, limit - 1).keys;
  }

  lemma {:induction false} KeysGrow(lists: Lists, ts: seq<Trait>, T: Trait, K: Key, failed: set<nat>, limit: int, n: nat)
    requires n <= |ts| && limit > 0
    ensures Collect(lists, ts[..n], T, K, failed, limit).keys <= Collect(lists, ts, T, K, failed, limit).keys
  {
    if n == |ts| {
      assert ts[..n] == ts;
    } else {
      var m := |ts| - 1;
      assert ts[..m][..n] == ts[..n];
      KeysGrow(lists, ts[..m], T, K, failed, limit, n);
      CollectCounts(lists, ts[..m], T, K, failed, limit);
      var c := Collect(lists, ts[..m], T, K, failed, limit);
      if !c.done { VisitCounts(lists, ts[m], T, K, m !in failed, c, limit); }
    }
  }

  lemma {:induction false} SameAfter(lists: Lists, ts: seq<Trait>, T: Trait, K: Key, failed: set<nat>, i: nat, limit: int)
    requires i < |ts| && Collect(lists, ts[..i + 1], T, K, failed + {i}, limit) == Collect(lists, ts[..i + 1], T, K, failed, limit)
    ensures Collect(lists, ts, T, K, failed + {i}, limit) == Collect(lists, ts, T, K, failed, limit)
  {
    if i + 1 == |ts| {
      assert ts[..i + 1] == ts;
    } else {
      assert ts[..|ts| - 1][..i + 1] == ts[..i + 1];
      SameAfter(lists, ts[..|ts| - 1], T, K, failed, i, limit);
    }
  }

  /** For instance: the page from the third key of three, with room for one, is the first key instead. */
  lemma FailedLookupExample()
    ensures var lists: Lists := map[[7] := [[1], [2], [3]]];
            Collect(lists, [[7]], [7], [3], {}, 1).keys == [[3]] && Collect(lists, [[7]], [7], [3], {0}, 1).keys == [[1]]
  {
    var lists: Lists := map[[7] := [[1], [2], [3]]];
    var l := KeysOf(lists, [7]);
    Irreflexive([7]);
    assert Distinct(l);
    IndexOf(l, 2);
    FirstCollected(l, 1);
    FirstCollected(l[2..], 1);
    WalkFacts(l, [], 1);
    WalkFacts(l[2..], [], 1);
    assert l[0..] == l && l[2..] == [[3]];
    assert [[7]][..0] == [];
    assert Collect(lists, [], [7], [3], {}, 1) == Cursor([], 1, [7], [3], false);
    assert Collect(lists, [], [7], [3], {0}, 1) == Cursor([], 1, [7], [3], false);
  }

  // ---- all the pages ------------------------------------------------------------------------

  ghost function AheadSet(lists: Lists, ts: seq<Trait>, T: Trait, K: Key): set<(Trait, Key)> {
    set t, k | t in ts && k in KeysOf(lists, t) && Ahead(lists, T, K, t, k) :: (t, k)
  }

  /** With room for two keys, the entry that opened the page drops out of what is ahead. */
  lemma FilledLeavesOneBehind(lists: Lists, ts: seq<Trait>, T: Trait, K: Key, limit: int) returns (t: Trait, k: Key)
    requires ListsOk(lists) && Sorted(ts) && limit >= 2 && Collect(lists, ts, T, K, {}, limit).done
    ensures var c' := Collect(lists, ts, T, K, {}, limit);
            t in ts && Ahead(lists, T, K, t, k) && !Ahead(lists, c'.lastTrait, c'.lastKey, t, k)
  {
    var n := FindFilling(lists, ts, T, K, {}, limit);
    var c := Collect(lists, ts[..n], T, K, {}, limit);
    CollectCounts(lists, ts[..n], T, K, {}, limit);
    CollectCollects(lists, ts[..n], T, K, {}, limit);
    t := ts[n];
    if c.keys == [] {
      k := FirstOfVisit(lists, t, T, K, c, limit);
    } else {
      k := c.keys[0];
      assert k in c.keys;
      t :| t in ts[..n] && Ahead(lists, T, K, t, k);
      assert t in ts;
      VisitFills(lists, ts[n], T, K, true, c, limit, k);
      VisitStops(lists, ts[n], T, K, true, c, limit);
      EarlierKey(lists, ts, T, K, limit, n, t, k);
    }
  }

  /** A key of the open page stands before the new key on which the page fills up. */
  lemma EarlierKey(lists: Lists, ts: seq<Trait>, T: Trait, K: Key, limit: int, n: nat, t: Trait, k: Key)
    requires ListsOk(lists) && Sorted(ts) && limit > 0 && FilledAt(lists, ts, T, K, {}, limit, n)
    requires Collect(lists, ts, T, K, {}, limit).done && Counts(Collect(lists, ts[..n], T, K, {}, limit), limit)
    requires Covers(lists, ts[..n], T, K, Collect(lists, ts[..n], T, K, {}, limit))
    requires t in ts[..n] && Ahead(lists, T, K, t, k)
    ensures var c' := Collect(lists, ts, T, K, {}, limit); !Ahead(lists, c'.lastTrait, c'.lastKey, t, k)
  {
    VisitStops(lists, ts[n], T, K, true, Collect(lists, ts[..n], T, K, {}, limit), limit);
    var i :| 0 <= i < n && ts[i] == t;
    assert LessEq(ts[i], ts[n]);
  }

  /** A visit with room for two new keys passes the first entry of its list. */
  lemma FirstOfVisit(lists: Lists, t: Trait, T: Trait, K: Key, c: Cursor, limit: int) returns (k: Key)
    requires ListsOk(lists) && Counts(c, limit) && c.limit >= 2 && Visit(lists, t, T, K, true, c).done
    ensures Ahead(lists, T, K, t, k) && !Ahead(lists, t, Visit(lists, t, T, K, true, c).lastKey, t, k)
  {
    var l := KeysOf(lists, t);
    var from := StartIndex(l, StartOf(t, T, K));
    WalkFacts(l[from..], c.keys, c.limit);
    var w := Walk(l[from..], c.keys, c.limit);
    k := l[from];
    assert Distinct(l);
    IndexOf(l, from);
    IndexOf(l, from + w.visited - 1);
  }

  lemma PageMovesForward(lists: Lists, ts: seq<Trait>, T: Trait, K: Key, limit: int)
    requires ListsOk(lists) && Sorted(ts) && limit >= 2 && Collect(lists, ts, T, K, {}, limit).done
    ensures var c := Collect(lists, ts, T, K, {}, limit);
            AheadSet(lists, ts, c.lastTrait, c.lastKey) < AheadSet(lists, ts, T, K)
  {
    var c := Collect(lists, ts, T, K, {}, limit);
    FullPageAdvances(lists, ts, T, K, {}, limit);
    var t, k := FilledLeavesOneBehind(lists, ts, T, K, limit);
    var next, now := AheadSet(lists, ts, c.lastTrait, c.lastKey), AheadSet(lists, ts, T, K);
    assert (t, k) in now && (t, k) !in next;
    forall p | p in next
      ensures p in now
    {
      assert Ahead(lists, T, K, p.0, p.1);
    }
  }

  /** The client: ask for a page, go on from its last trait and key until a page is short. */
  ghost function Drain(lists: Lists, traits: seq<Trait>, T: Trait, K: Key, limit: int): set<Key>
    requires ListsOk(lists) && limit >= 2
    decreases AheadSet(lists, Sort(traits), T, K)
  {
    var page := GetKeys(lists, traits, T, K, limit);
    var found := set k | k in page.keys;
    if |page.keys| < limit then found
    else
      SortSorted(traits);
      CollectCounts(lists, Sort(traits), T, K, {}, limit);
      PageMovesForward(lists, Sort(traits), T, K, limit);
      found + Drain(lists, traits, page.lastTrait, page.lastKey, limit)
  }

  lemma {:induction false} DrainFinds(lists: Lists, traits: seq<Trait>, T: Trait, K: Key, limit: int, k: Key)
    requires ListsOk(lists) && limit >= 2
    ensures k in Drain(lists, traits, T, K, limit) <==> exists t :: t in Sort(traits) && Ahead(lists, T, K, t, k)
    decreases AheadSet(lists, Sort(traits), T, K)
  {
    var ts := Sort(traits);
    var page := Collect(lists, ts, T, K, {}, limit);
    SortSorted(traits);
    CollectCounts(lists, ts, T, K, {}, limit);
    CollectCollects(lists, ts, T, K, {}, limit);
    if page.done {
      PageMovesForward(lists, ts, T, K, limit);
      FullPageAdvances(lists, ts, T, K, {}, limit);
      DrainFinds(lists, traits, page.lastTrait, page.lastKey, limit, k);
    }
  }

  /** An iterator over a trait that is not the start trait is started at the empty key. If the list has
      that key, what stands before it is never reached. */
  predicate Reached(lists: Lists, t: Trait, k: Key) {
    var l := KeysOf(lists, t);
    k in l && StartIndex(l, k) >= StartIndex(l, [])
  }

  /** Paging is complete: the pages together hold exactly the keys reached under some requested trait. */
  lemma PagingIsComplete(lists: Lists, traits: seq<Trait>, limit: int, k: Key)
    requires ListsOk(lists) && limit >= 2
    ensures k in Drain(lists, traits, [], [], limit) <==> exists t :: t in traits && Reached(lists, t, k)
  {
    DrainFinds(lists, traits, [], [], limit, k);
    FromTheBeginning(lists, traits, k);
  }

  lemma FromTheBeginning(lists: Lists, traits: seq<Trait>, k: Key)
    ensures (exists t :: t in Sort(traits) && Ahead(lists, [], [], t, k)) <==> exists t :: t in traits && Reached(lists, t, k)
  {
    forall t
      ensures t in Sort(traits) && Ahead(lists, [], [], t, k) <==> t in traits && Reached(lists, t, k)
    {
      SortMembers(traits, t);
    }
  }

  /** For one trait, paging finds all its keys exactly when the empty key is not in the list or is its
      first; so it does when no element has an empty key. */
  lemma PagingOneTrait(lists: Lists, t: Trait, limit: int)
    requires ListsOk(lists) && limit >= 2
    ensures (forall k :: k in Drain(lists, [t], [], [], limit) <==> k in KeysOf(lists, t))
            <==> [] !in KeysOf(lists, t) || KeysOf(lists, t)[0] == []
  {
    var l := KeysOf(lists, t);
    forall k
      ensures k in Drain(lists, [t], [], [], limit) <==> Reached(lists, t, k)
    {
      PagingIsComplete(lists, [t], limit, k);
    }
    if [] in l && l[0] != [] {
      assert Distinct(l);
      IndexOf(l, 0);
      assert l[0] in l && !Reached(lists, t, l[0]);
    } else {
      assert forall k :: k in l <==> Reached(lists, t, k);
    }
  }

  // ---- all the pages, with failed lookups ---------------------------------------------------

  /** What the client has when it stops, and whether it saw a short page. */
  datatype Drained = Drained(found: set<Key>, complete: bool)

  /** The client again; lookups fail on page i as `failures[i]` says, and it stops after that many pages. */
  ghost function DrainBy(lists: Lists, traits: seq<Trait>, T: Trait, K: Key, limit: int, failures: seq<set<nat>>): Drained
    decreases |failures|
  {
    if failures == [] then Drained({}, false)
    else
      var page := Collect(lists, Sort(traits), T, K, failures[0], limit);
      var found := set k | k in page.keys;
      if |page.keys| < limit then Drained(found, true)
      else
        var rest := DrainBy(lists, traits, page.lastTrait, page.lastKey, limit, failures[1..]);
        Drained(found + rest.found, rest.complete)
  }

  lemma {:induction false} DrainByFinds(lists: Lists, traits: seq<Trait>, T: Trait, K: Key, limit: int, failures: seq<set<nat>>, k: Key)
    requires ListsOk(lists) && limit > 0
    ensures var d := DrainBy(lists, traits, T, K, limit, failures);
            && (k in d.found ==> exists t :: t in Sort(traits) && k in KeysOf(lists, t))
            && (d.complete ==> ((exists t :: t in Sort(traits) && Ahead(lists, T, K, t, k)) ==> k in d.found))
    decreases |failures|
  {
    if failures != [] {
      var ts := Sort(traits);
      var page := Collect(lists, ts, T, K, failures[0], limit);
      SortSorted(traits);
      CollectCounts(lists, ts, T, K, failures[0], limit);
      CollectCollects(lists, ts, T, K, failures[0], limit);
      if page.done {
        FullPageAdvances(lists, ts, T, K, failures[0], limit);
        DrainByFinds(lists, traits, page.lastTrait, page.lastKey, limit, failures[1..], k);
      }
    }
  }

  /** Failed lookups repeat keys but lose none: whatever fails on whatever page, a client that gets to a
      short page has every key reached under a requested trait, and no key that is not listed under one. */
  lemma FailuresLoseNothing(lists: Lists, traits: seq<Trait>, limit: int, failures: seq<set<nat>>, k: Key)
    requires ListsOk(lists) && limit > 0 && DrainBy(lists, traits, [], [], limit, failures).complete
    ensures var found := DrainBy(lists, traits, [], [], limit, failures).found;
            && ((exists t :: t in traits && Reached(lists, t, k)) ==> k in found)
            && (k in found ==> exists t :: t in traits && k in KeysOf(lists, t))
  {
    DrainByFinds(lists, traits, [], [], limit, failures, k);
    FromTheBeginning(lists, traits, k);
    forall t
      ensures t in Sort(traits) <==> t in traits
    {
      SortMembers(traits, t);
    }
  }

  /** With room for one key the client stands still: a page that starts on a listed key is that key. */
  lemma OneKeyPagesStandStill(lists: Lists, ts: seq<Trait>, T: Trait, K: Key)
    requires ListsOk(lists) && Sorted(ts) && T in ts && K in KeysOf(lists, T)
    ensures Collect(lists, ts, T, K, {}, 1) == Cursor([K], 0, T, K, true)
  {
    var i := FirstAt(ts, T);
    assert Collect(lists, ts[..i + 1], T, K, {}, 1) == Cursor([K], 0, T, K, true) by {
      BeforeStart(lists, ts[..i], T, K, {}, 1);
      OneKeyVisit(lists, T, K);
      CollectOn(lists, ts, i, T, K, {}, 1);
    }
    DoneStays(lists, ts, T, K, {}, 1, i + 1);
  }

  lemma OneKeyVisit(lists: Lists, T: Trait, K: Key)
    requires ListsOk(lists) && K in KeysOf(lists, T)
    ensures Visit(lists, T, T, K, true, Cursor([], 1, T, K, false)) == Cursor([K], 0, T, K, true)
  {
    var l := KeysOf(lists, T);
    var from := StartIndex(l, K);
    Irreflexive(T);
    assert Walk(l[from..], [], 1) == Walked([K], 0, 1) by {
      assert [] + [l[from]] == [K];
      assert Walk(l[from..][1..], [K], 0) == Walked([K], 0, 0);
    }
  }

  lemma FirstAt(ts: seq<Trait>, T: Trait) returns (i: nat)
    requires Sorted(ts) && T in ts
    ensures i < |ts| && ts[i] == T && forall j :: 0 <= j < i ==> Less(ts[j], T)
  {
    i := 0;
    while ts[i] != T
      invariant i < |ts| && T in ts[i..] && forall j :: 0 <= j < i ==> ts[j] != T
      decreases |ts| - i
    {
      i := i + 1;
    }
  }

  lemma {:induction false} BeforeStart(lists: Lists, ts: seq<Trait>, T: Trait, K: Key, failed: set<nat>, limit: int)
    requires forall j :: 0 <= j < |ts| ==> Less(ts[j], T)
    ensures Collect(lists, ts, T, K, failed, limit) == Cursor([], limit, T, K, false)
  {
    if ts != [] { BeforeStart(lists, ts[..|ts| - 1], T, K, failed, limit); }
  }

  lemma {:induction false} DoneStays(lists: Lists, ts: seq<Trait>, T: Trait, K: Key, failed: set<nat>, limit: int, n: nat)
    requires n <= |ts| && Collect(lists, ts[..n], T, K, failed, limit).done
    ensures Collect(lists, ts, T, K, failed, limit) == Collect(lists, ts[..n], T, K, failed, limit)
  {
    if n == |ts| {
      assert ts[..n] == ts;
    } else {
      assert ts[..|ts| - 1][..n] == ts[..n];
      DoneStays(lists, ts[..|ts| - 1], T, K, failed, limit, n);
    }
  }

  // ---- in place -----------------------------------------------------------------------------

  /** The hash tells the listed keys apart. */
  ghost predicate NoCollision(hash: Key -> Bytes, listed: set<Key>) {
    forall k, k' :: k in listed && k' in listed && hash(k) == hash(k') ==> k == k'
  }

  ghost predicate AllListed(lists: Lists, listed: set<Key>) {
    forall t, k :: k in KeysOf(lists, t) ==> k in listed
  }

  /** `tracked` holds the hashes of the keys collected so far. */
  ghost predicate Tracks(hash: Key -> Bytes, keys: seq<Key>, tracked: set<Bytes>, listed: set<Key>) {
    && (forall k :: k in keys ==> k in listed)
    && (forall k :: k in listed ==> (hash(k) in tracked <==> k in keys))
  }

  lemma TracksAdd(hash: Key -> Bytes, keys: seq<Key>, tracked: set<Bytes>, listed: set<Key>, k: Key)
    requires NoCollision(hash, listed) && Tracks(hash, keys, tracked, listed) && k in listed
    ensures Tracks(hash, keys + [k], tracked + {hash(k)}, listed)
  {
  }

  lemma {:induction false} WalkVisits(l: seq<Key>, keys: seq<Key>, limit: int)
    ensures Walk(l, keys, limit).visited <= |l|
  {
    if l != [] && limit > 0 {
      WalkVisits(l[1..], KeysAfterFirst(l, keys), if l[0] in keys then limit else limit - 1);
    }
  }

  /** What the rest of the walk adds after the first i entries. */
  ghost predicate WalkedTo(l: seq<Key>, keys0: seq<Key>, limit0: int, i: nat, keys: seq<Key>, limit: int) {
    i <= |l| &&
    var w, rest := Walk(l, keys0, limit0), Walk(l[i..], keys, limit);
    w == rest.(visited := rest.visited + i)
  }

  lemma WalkOn(l: seq<Key>, keys0: seq<Key>, limit0: int, i: nat, keys: seq<Key>, limit: int)
    requires WalkedTo(l, keys0, limit0, i, keys, limit) && i < |l| && limit > 0
    ensures if l[i] in keys then WalkedTo(l, keys0, limit0, i + 1, keys, limit)
            else WalkedTo(l, keys0, limit0, i + 1, keys + [l[i]], limit - 1)
  {
    assert l[i..][1..] == l[i + 1..];
  }

  /** The loop of appendTraitKeys over what the iterator yields; it is not ok when the iterator reports a
      database error. */
  method WalkRest(rest: seq<Key>, startKey: Key, hash: Key -> Bytes, keys0: seq<Key>, tracked0: set<Bytes>,
                  limit0: int, ghost listed: set<Key>, sound: bool)
    returns (ok: bool, keys: seq<Key>, tracked: set<Bytes>, limit: int, lastKey: Key)
    requires NoCollision(hash, listed) && Tracks(hash, keys0, tracked0, listed) && forall k :: k in rest ==> k in listed
    ensures ok ==> var w := Walk(rest, keys0, limit0);
                   && keys == w.keys && limit == w.limit && w.visited <= |rest|
                   && lastKey == (if w.visited > 0 then rest[w.visited - 1] else startKey)
                   && Tracks(hash, keys, tracked, listed)
    ensures sound ==> ok
  {
    ok, keys, tracked, limit, lastKey := true, keys0, tracked0, limit0, startKey;
    WalkVisits(rest, keys0, limit0);
    var i := 0;
    while i < |rest| && limit > 0
      invariant Tracks(hash, keys, tracked, listed)
      invariant WalkedTo(rest, keys0, limit0, i, keys, limit)
      invariant lastKey == if i > 0 then rest[i - 1] else startKey
    {
      var fault := Fault(sound);
      if fault {
        return false, keys, tracked, limit, lastKey;
      }
      var key := rest[i];
      WalkOn(rest, keys0, limit0, i, keys, limit);
      lastKey, i := key, i + 1;
      if hash(key) in tracked {
        continue;
      }
      TracksAdd(hash, keys, tracked, listed, key);
      tracked := tracked + {hash(key)};
      keys, limit := keys + [key], limit - 1;
    }
    var fault := Fault(sound);
    ok := !fault;
  }

  /** appendTraitKeys. The failure of the lookup that places the iterator goes unreported; `looked` tells
      whether it succeeded. */
  method AppendTraitKeys(lists: Lists, name: Trait, startKey: Key, hash: Key -> Bytes, keys0: seq<Key>,
                         tracked0: set<Bytes>, limit0: int, ghost listed: set<Key>, sound: bool)
    returns (ok: bool, keys: seq<Key>, tracked: set<Bytes>, limit: int, lastKey: Key, ghost looked: bool)
    requires NoCollision(hash, listed) && AllListed(lists, listed) && Tracks(hash, keys0, tracked0, listed)
    ensures ok ==> var l := KeysOf(lists, name);
                   var from := From(l, startKey, looked);
                   var w := Walk(l[from..], keys0, limit0);
                   && keys == w.keys && limit == w.limit && w.visited <= |l| - from
                   && lastKey == (if w.visited > 0 then l[from + w.visited - 1] else startKey)
                   && Tracks(hash, keys, tracked, listed)
    ensures sound ==> ok && keys == Walk(KeysOf(lists, name)[StartIndex(KeysOf(lists, name), startKey)..], keys0, limit0).keys
    ensures sound ==> looked
  {
    var l := KeysOf(lists, name);
    var fault := Fault(sound);
    looked := !fault;
    var from := if fault then 0 else StartIndex(l, startKey);
    assert forall k :: k in l[from..] ==> k in l;
    ok, keys, tracked, limit, lastKey := WalkRest(l[from..], startKey, hash, keys0, tracked0, limit0, listed, sound);
  }

  /** The start key that getKeys carries from trait to trait. */
  ghost predicate Carried(ts: seq<Trait>, i: nat, startTrait: Trait, startKey: Key, from: Key) {
    from == startKey || (from == [] && forall j :: i <= j < |ts| ==> Less(startTrait, ts[j]))
  }

  lemma CarriedIsStart(ts: seq<Trait>, i: nat, startTrait: Trait, startKey: Key, from: Key)
    requires Sorted(ts) && i < |ts| && Carried(ts, i, startTrait, startKey, from) && !Less(ts[i], startTrait)
    ensures var from' := if Less(startTrait, ts[i]) then [] else from;
            from' == StartOf(ts[i], startTrait, startKey) && Carried(ts, i + 1, startTrait, startKey, from')
  {
    Total(ts[i], startTrait);
    Irreflexive(startTrait);
    if Less(startTrait, ts[i]) { AllLater(ts, i, startTrait); }
  }

  /** One turn of the loop, for a trait that is not before the start. */
  method VisitTrait(lists: Lists, t: Trait, ghost startTrait: Trait, ghost startKey: Key, from: Key, hash: Key -> Bytes,
                    c0: Cursor, tracked0: set<Bytes>, ghost listed: set<Key>, sound: bool)
    returns (ok: bool, c: Cursor, tracked: set<Bytes>, ghost looked: bool)
    requires NoCollision(hash, listed) && AllListed(lists, listed) && Tracks(hash, c0.keys, tracked0, listed)
    requires !Less(t, startTrait) && from == StartOf(t, startTrait, startKey)
    ensures ok ==> c == Visit(lists, t, startTrait, startKey, looked, c0) && Tracks(hash, c.keys, tracked, listed)
    ensures sound ==> ok && c == Visit(lists, t, startTrait, startKey, true, c0)
    ensures sound ==> looked
  {
    var keys, limit, lastKey;
    ok, keys, tracked, limit, lastKey, looked := AppendTraitKeys(lists, t, from, hash, c0.keys, tracked0, c0.limit, listed, sound);
    c := Cursor(keys, limit, t, lastKey, limit == 0);
  }

  /** The start key for a trait, as getKeys resets it. */
  method NextStart(ts: seq<Trait>, i: nat, startTrait: Trait, ghost startKey: Key, from0: Key) returns (from: Key)
    requires Sorted(ts) && i < |ts| && Carried(ts, i, startTrait, startKey, from0) && !Less(ts[i], startTrait)
    ensures from == StartOf(ts[i], startTrait, startKey) && Carried(ts, i + 1, startTrait, startKey, from)
  {
    CarriedIsStart(ts, i, startTrait, startKey, from0);
    from := from0;
    if Less(startTrait, ts[i]) {
      from := [];
    }
  }

  /** getKeys. `failed` are the visits whose lookup failed unreported; if there is none, the page is the
      one that was asked for. Over a sound database there is none, and no error. */
  method CollectKeys(lists: Lists, traits: seq<Trait>, startTrait: Trait, startKey: Key, limit0: int,
                     hash: Key -> Bytes, ghost listed: set<Key>, sound: bool)
    returns (ok: bool, c: Cursor, ghost failed: set<nat>)
    requires NoCollision(hash, listed) && AllListed(lists, listed)
    ensures ok ==> c == Collect(lists, Sort(traits), startTrait, startKey, failed, limit0)
    ensures ok && failed == {} ==> c == GetKeys(lists, traits, startTrait, startKey, limit0)
    ensures sound ==> ok && c == GetKeys(lists, traits, startTrait, startKey, limit0)
    ensures sound ==> failed == {}
  {
    var tracked: set<Bytes> := {};
    var from := startKey;
    c, failed := Cursor([], limit0, startTrait, startKey, false), {};
    var ts := Sort(traits);
    SortSorted(traits);
    for i := 0 to |ts|
      invariant Tracks(hash, c.keys, tracked, listed) && Carried(ts, i, startTrait, startKey, from)
      invariant c == Collect(lists, ts[..i], startTrait, startKey, failed, limit0) && !c.done
      invariant (forall j :: j in failed ==> j < i) && (sound ==> failed == {})
    {
      if Less(ts[i], startTrait) {
        CollectOn(lists, ts, i, startTrait, startKey, failed, limit0);
        continue;
      }
      from := NextStart(ts, i, startTrait, startKey, from);
      ghost var looked;
      ok, c, tracked, looked := VisitTrait(lists, ts[i], startTrait, startKey, from, hash, c, tracked, listed, sound);
      if !ok {
        return;
      }
      if !looked {
        LaterFailures(lists, ts[..i], startTrait, startKey, failed, {i}, limit0);
        failed := failed + {i};
      }
      CollectOn(lists, ts, i, startTrait, startKey, failed, limit0);
      if c.limit == 0 {
        DoneStays(lists, ts, startTrait, startKey, failed, limit0, i + 1);
        return;
      }
    }
    ok := true;
    assert ts[..|ts|] == ts;
  }

  /** Lookups of traits still to come do not matter. */
  lemma {:induction false} LaterFailures(lists: Lists, ts: seq<Trait>, T: Trait, K: Key, failed: set<nat>, more: set<nat>, limit: int)
    requires forall j :: j in more ==> j >= |ts|
    ensures Collect(lists, ts, T, K, failed + more, limit) == Collect(lists, ts, T, K, failed, limit)
  {
    if ts != [] { LaterFailures(lists, ts[..|ts| - 1], T, K, failed, more, limit); }
  }

  /** A page depends on the lists of the requested traits only. */
  lemma {:induction false} CollectSame(lists: Lists, lists': Lists, ts: seq<Trait>, T: Trait, K: Key, failed: set<nat>, limit: int)
    requires forall i :: 0 <= i < |ts| ==> KeysOf(lists, ts[i]) == KeysOf(lists', ts[i])
    ensures Collect(lists, ts, T, K, failed, limit) == Collect(lists', ts, T, K, failed, limit)
  {
    if ts != [] { CollectSame(lists, lists', ts[..|ts| - 1], T, K, failed, limit); }
  }

  lemma CollectOn(lists: Lists, ts: seq<Trait>, i: nat, T: Trait, K: Key, failed: set<nat>, limit: int)
    requires i < |ts|
    ensures var c := Collect(lists, ts[..i], T, K, failed, limit);
            Collect(lists, ts[..i + 1], T, K, failed, limit) == if c.done then c else Visit(lists, ts[i], T, K, i !in failed, c)
  {
    assert ts[..i + 1][..i] == ts[..i];
  }

  lemma AllLater(ts: seq<Trait>, i: nat, T: Trait)
    requires Sorted(ts) && i < |ts| && Less(T, ts[i])
    ensures forall j :: i <= j < |ts| ==> Less(T, ts[j])
  {
    forall j | i < j < |ts|
      ensures Less(T, ts[j])
    {
      if ts[i] != ts[j] { Transitive(T, ts[i], ts[j]); }
    }
  }

  // ---- paging over a reachable space --------------------------------------------------------

  function Firsts(l: AtomicState.Keys): seq<Key> {
    seq(|l|, i requires 0 <= i < |l| => l[i].0)
  }

  function KeyLists(index: AtomicState.Index): Lists {
    map t | t in index :: Firsts(index[t])
  }

  lemma KeyListsMembers(index: AtomicState.Index, t: Trait, k: Key)
    ensures k in KeysOf(KeyLists(index), t) <==> AtomicState.Listed(index, t, k)
  {
    var l := AtomicState.KeysOf(index, t);
    assert KeysOf(KeyLists(index), t) == Firsts(l);
    if LinkedList.HasKey(l, k) {
      var i :| 0 <= i < |l| && l[i].0 == k;
      assert Firsts(l)[i] == k;
    }
    if i :| 0 <= i < |Firsts(l)| && Firsts(l)[i] == k { assert l[i].0 == k; }
  }

  lemma AgreeingListsOk(s: AtomicState.Space)
    requires AtomicState.Agree(s)
    ensures ListsOk(KeyLists(s.index))
  {
    forall t
      ensures Distinct(KeysOf(KeyLists(s.index), t))
    {
      assert LinkedList.NoDup(AtomicState.KeysOf(s.index, t));
    }
  }

  /** The empty key hides nothing: no element has it, or it heads every list it is in. */
  ghost predicate NothingHidden(lists: Lists) {
    forall t :: StartIndex(KeysOf(lists, t), []) == 0
  }

  lemma NoEmptyKeyHides(s: AtomicState.Space)
    requires AtomicState.Agree(s) && ([] in s.values ==> !s.values[[]].present)
    ensures NothingHidden(KeyLists(s.index))
  {
    forall t
      ensures [] !in KeysOf(KeyLists(s.index), t)
    {
      KeyListsMembers(s.index, t, []);
      assert AtomicState.Listed(s.index, t, []) <==> AtomicState.Carries(s.values, t, []);
    }
  }

  /** The keys of a page are those of present elements with a requested trait. */
  lemma PageCarries(s: AtomicState.Space, traits: seq<Trait>, T: Trait, K: Key, failed: set<nat>, limit: int, k: Key)
    requires AtomicState.Agree(s) && k in Collect(KeyLists(s.index), Sort(traits), T, K, failed, limit).keys
    ensures exists t :: t in traits && AtomicState.Carries(s.values, t, k)
  {
    var lists, ts := KeyLists(s.index), Sort(traits);
    AgreeingListsOk(s);
    if limit > 0 {
      CollectCollects(lists, ts, T, K, failed, limit);
    } else {
      NoRoom(lists, ts, T, K, failed, limit);
    }
    var t :| t in ts && k in KeysOf(lists, t);
    SortMembers(traits, t);
    KeyListsMembers(s.index, t, k);
    assert AtomicState.Listed(s.index, t, k) <==> AtomicState.Carries(s.values, t, k);
  }

  lemma {:induction false} NoRoom(lists: Lists, ts: seq<Trait>, T: Trait, K: Key, failed: set<nat>, limit: int)
    requires limit <= 0
    ensures Collect(lists, ts, T, K, failed, limit).keys == [] && Collect(lists, ts, T, K, failed, limit).limit == limit
  {
    if ts != [] { NoRoom(lists, ts[..|ts| - 1], T, K, failed, limit); }
  }

  /** Over any space whose index and elements agree, all the pages together hold exactly the keys whose
      present element lists a requested trait. */
  lemma PagingFindsCarriers(s: AtomicState.Space, traits: seq<Trait>, limit: int, failures: seq<set<nat>>, k: Key)
    requires AtomicState.Agree(s) && NothingHidden(KeyLists(s.index)) && limit > 0
    requires DrainBy(KeyLists(s.index), traits, [], [], limit, failures).complete
    ensures k in DrainBy(KeyLists(s.index), traits, [], [], limit, failures).found
            <==> exists t :: t in traits && AtomicState.Carries(s.values, t, k)
  {
    AgreeingListsOk(s);
    var lists := KeyLists(s.index);
    FailuresLoseNothing(lists, traits, limit, failures, k);
    forall t
      ensures Reached(lists, t, k) <==> AtomicState.Carries(s.values, t, k)
      ensures k in KeysOf(lists, t) <==> AtomicState.Carries(s.values, t, k)
    {
      assert StartIndex(KeysOf(lists, t), []) == 0;
      KeyListsMembers(s.index, t, k);
      assert AtomicState.Listed(s.index, t, k) <==> AtomicState.Carries(s.values, t, k);
    }
  }
}
