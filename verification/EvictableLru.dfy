/** cache/unique_cache.go: an LRU that hands out one canonical value per key and notifies a value
exactly once when it leaves. `evicted` records the Evict calls in the order they were made. */
module EvictableLru {
  import opened Options
  import opened Lru

  /** An Evictable: its key and its identity. */
  datatype Item<K> = Item(key: K, body: nat)

  type Items<K> = Entries<K, Item<K>>

  function Bodies<K>(s: Items<K>): (r: seq<Item<K>>)
    ensures |r| == |s| && forall i :: 0 <= i < |s| ==> r[i] == s[i].1
  {
    seq(|s|, i requires 0 <= i < |s| => s[i].1)
  }

  /** Entries are filed under the key of their item. */
  ghost predicate Filed<K>(s: Items<K>) {
    forall i :: 0 <= i < |s| ==> s[i].0 == s[i].1.key
  }

  datatype Outcome<K> = Outcome(items: Items<K>, result: Item<K>, evicted: seq<Item<K>>)

  /** deduplicate on a cache that is within its size `n`. */
  function DeduplicateFitting<K(==)>(s: Items<K>, n: nat, item: Item<K>): Outcome<K>
    requires 0 < n
  {
    match Find(s, item.key)
    case Some(known) => Outcome(Remove(s, item.key) + [(item.key, known)], known, [])
    case None =>
      if |s| < n then Outcome(s + [(item.key, item)], item, [])
      else Outcome(s[1..] + [(item.key, item)], item, [s[0].1])
  }

  /** The items that a resize to `n` drops. */
  function Surplus<K>(s: Items<K>, n: nat): Items<K> {
    if |s| <= n then [] else s[..|s| - n]
  }

  function Deduplicate<K(==)>(s: Items<K>, size: int, item: Item<K>): Outcome<K> {
    var n := Limit(size);
    var o := DeduplicateFitting(Recent(s, n), n, item);
    o.(evicted := Bodies(Surplus(s, n)) + o.evicted)
  }

  // ---- the cache ----------------------------------------------------------------------------

  class EvictableLRU<K(==,!new)> {
    /** The entryMap, entryList and Size fields. */
    const list: LRU<K, Item<K>>
    var evicted: seq<Item<K>>

    ghost predicate Valid()
      reads this, list
    {
      list.Valid()
    }

    ghost function Contents(): Items<K>
      requires Valid()
      reads this, list
    {
      list.Contents()
    }

    constructor (size: int)
      ensures Valid() && Contents() == [] && evicted == [] && list.size == size && fresh(list)
    {
      list := new LRU(size);
      evicted := [];
    }

    method EvictFront()
      requires Valid() && |list.entryList| > 0
      modifies this, list
      ensures Valid() && Contents() == old(Contents())[1..] && list.size == old(list.size)
      ensures evicted == old(evicted) + [old(Contents())[0].1]
    {
      var e := list.entryList[0];
      assert e in list.entryList;
      var item := list.entries[e].1;
      list.Unlink(0);
      assert old(Contents())[..0] + old(Contents())[1..] == old(Contents())[1..];
      evicted := evicted + [item];
    }

    method Resize(size: nat)
      requires Valid()
      modifies this, list
      ensures Valid() && list.size == old(list.size) && Contents() == Recent(old(Contents()), size)
      ensures evicted == old(evicted) + Bodies(Surplus(old(Contents()), size))
    {
      ghost var all, k := Contents(), 0;
      assert all[..0] == [] && evicted + [] == evicted;
      while |list.entryList| > size
        invariant Valid() && 0 <= k <= |all| && Contents() == all[k..]
        invariant k > 0 ==> |all| - k >= size
        invariant evicted == old(evicted) + Bodies(all[..k])
        invariant list.size == old(list.size)
        decreases |all| - k
      {
        BodiesNext(all, k);
        EvictFront();
        k := k + 1;
      }
    }

    /** The value is new: it takes a free place or that of the front item, which is notified. */
    method Insert(item: Item<K>)
      requires Valid() && 0 < list.size && |Contents()| <= list.size && item.key !in list.entryMap
      modifies this, list
      ensures Valid() && list.size == old(list.size)
      ensures if |old(Contents())| < list.size
              then Contents() == old(Contents()) + [(item.key, item)] && evicted == old(evicted)
              else Contents() == old(Contents())[1..] + [(item.key, item)] &&
                   evicted == old(evicted) + [old(Contents())[0].1]
    {
      if |list.entryList| >= list.size {
        assert list.entryList[0] in list.entryList;
        assert Contents()[..0] + Contents()[1..] == Contents()[1..];
        evicted := evicted + [list.entries[list.entryList[0]].1];
        list.MoveToBack(0, item.key, item);
      } else {
        list.PushBack(item.key, item);
      }
    }

    /** The value is known: the one in the cache becomes the most recent and is handed out. */
    method Touch(key: K) returns (known: Item<K>)
      requires Valid() && key in list.entryMap
      modifies list
      ensures Valid() && list.size == old(list.size)
      ensures Find(old(Contents()), key) == Some(known)
      ensures Contents() == Remove(old(Contents()), key) + [(key, known)]
    {
      assert list.entryMap[key] in list.entryList;
      var i :| 0 <= i < |list.entryList| && list.entryList[i] == list.entryMap[key];
      RemoveAt(Contents(), i);
      known := list.entries[list.entryList[i]].1;
      list.MoveToBack(i, key, known);
    }

    /** deduplicate after init and resize. */
    method DeduplicateTrimmed(item: Item<K>) returns (result: Item<K>)
      requires Valid() && 0 < list.size && |Contents()| <= list.size
      modifies this, list
      ensures Valid() && list.size == old(list.size)
      ensures var o := DeduplicateFitting(old(Contents()), list.size, item);
              Contents() == o.items && result == o.result && evicted == old(evicted) + o.evicted
    {
      KeyInAbs(list.View(), item.key);
      if item.key !in list.entryMap {
        RemoveAbsent(Contents(), item.key);
        Insert(item);
        result := item;
      } else {
        result := Touch(item.key);
      }
    }

    method DeduplicateItem(item: Item<K>) returns (result: Item<K>)
      requires Valid()
      modifies this, list
      ensures Valid() && list.size == Limit(old(list.size))
      ensures var o := Deduplicate(old(Contents()), old(list.size), item);
              Contents() == o.items && result == o.result && evicted == old(evicted) + o.evicted
    {
      ghost var s, size, log := Contents(), list.size, evicted;
      list.Init();
      Resize(list.size);
      result := DeduplicateTrimmed(item);
      Assoc(log, Bodies(Surplus(s, Limit(size))), DeduplicateFitting(Recent(s, Limit(size)), Limit(size), item).evicted);
    }

    /** Size is set to zero for the resize and restored. */
    method Flush()
      requires Valid()
      modifies this, list
      ensures Valid() && Contents() == [] && list.size == Limit(old(list.size))
      ensures evicted == old(evicted) + Bodies(old(Contents()))
    {
      list.Init();
      var size := list.size;
      list.size := 0;
      Resize(0);
      list.size := size;
      assert old(Contents())[..|old(Contents())|] == old(Contents());
    }
  }

  lemma BodiesNext<K>(s: Items<K>, k: nat)
    requires k < |s|
    ensures Bodies(s[..k + 1]) == Bodies(s[..k]) + [s[k].1]
  {
  }

  lemma Assoc<T>(a: seq<T>, b: seq<T>, c: seq<T>)
    ensures a + b + c == a + (b + c)
  {
  }

  // ---- whole runs ---------------------------------------------------------------------------

  datatype Op<K> = Dedup(item: Item<K>) | FlushAll | SetSize(size: int)

  /** `entered` and `evicted` list the values that came in and those notified, in order. */
  datatype State<K> = State(items: Items<K>, size: int, entered: seq<Item<K>>, evicted: seq<Item<K>>)

  function Step<K(==)>(s: State<K>, op: Op<K>): State<K> {
    match op
    case Dedup(item) =>
      var o := Deduplicate(s.items, s.size, item);
      var known := Find(Recent(s.items, Limit(s.size)), item.key).Some?;
      State(o.items, Limit(s.size), if known then s.entered else s.entered + [item], s.evicted + o.evicted)
    case FlushAll => State([], Limit(s.size), s.entered, s.evicted + Bodies(s.items))
    case SetSize(n) => s.(size := n)
  }

  function Run<K(==)>(size: int, ops: seq<Op<K>>): State<K> {
    if ops == [] then State([], size, [], []) else Step(Run(size, ops[..|ops| - 1]), ops[|ops| - 1])
  }

  ghost predicate Conserves<K>(s: State<K>) {
    && NoDup(s.items) && Filed(s.items)
    && multiset(s.entered) == multiset(Bodies(s.items)) + multiset(s.evicted)
  }

  lemma BodiesConcat<K>(a: Items<K>, b: Items<K>)
    ensures Bodies(a + b) == Bodies(a) + Bodies(b)
  {
  }

  /** multiset(Bodies(s)), which distributes over concatenation. */
  ghost function Bag<K>(s: Items<K>): multiset<Item<K>> {
    multiset(Bodies(s))
  }

  lemma BagConcat<K>(a: Items<K>, b: Items<K>)
    ensures Bag(a + b) == Bag(a) + Bag(b)
  {
    BodiesConcat(a, b);
  }

  lemma BagOne<K>(e: (K, Item<K>))
    ensures Bag([e]) == multiset{e.1}
  {
    assert Bodies([e]) == [e.1];
  }

  lemma BagInsert<K>(s: Items<K>, e: (K, Item<K>))
    ensures Bag(s + [e]) == Bag(s) + multiset{e.1}
    ensures s != [] ==> Bag(s[1..] + [e]) + multiset{s[0].1} == Bag(s) + multiset{e.1}
  {
    BagConcat(s, [e]);
    BagOne(e);
    if s != [] {
      assert s == [s[0]] + s[1..];
      BagConcat([s[0]], s[1..]);
      BagConcat(s[1..], [e]);
      BagOne(s[0]);
    }
  }

  lemma BagTouch<K>(s: Items<K>, i: nat)
    requires NoDup(s) && i < |s|
    ensures Find(s, s[i].0) == Some(s[i].1) && Bag(Remove(s, s[i].0) + [s[i]]) == Bag(s)
  {
    RemoveAt(s, i);
    var a, e, b := s[..i], [s[i]], s[i + 1..];
    assert s == a + e + b;
    BagSwap(a, e, b);
  }

  lemma BagSwap<K>(a: Items<K>, b: Items<K>, c: Items<K>)
    ensures Bag(a + b + c) == Bag(a + c + b)
  {
    BagConcat(a, b);
    BagConcat(a + b, c);
    BagConcat(a, c);
    BagConcat(a + c, b);
  }

  function Newcomer<K(==)>(s: Items<K>, item: Item<K>): multiset<Item<K>> {
    if Find(s, item.key).Some? then multiset{} else multiset{item}
  }

  lemma FittingMoves<K>(s: Items<K>, n: nat, item: Item<K>)
    requires NoDup(s) && |s| <= n && 0 < n
    ensures var o := DeduplicateFitting(s, n, item); Bag(o.items) + multiset(o.evicted) == Bag(s) + Newcomer(s, item)
  {
    FindMember(s, item.key);
    if Find(s, item.key).Some? {
      var i :| 0 <= i < |s| && s[i].0 == item.key;
      BagTouch(s, i);
    } else {
      BagInsert(s, (item.key, item));
    }
  }

  lemma FittingFiles<K>(s: Items<K>, n: nat, item: Item<K>)
    requires NoDup(s) && Filed(s) && |s| <= n && 0 < n
    ensures var o := DeduplicateFitting(s, n, item);
            NoDup(o.items) && Filed(o.items) && |o.items| <= n && o.result.key == item.key
  {
    FindMember(s, item.key);
    if Find(s, item.key).Some? {
      var i :| 0 <= i < |s| && s[i].0 == item.key;
      RemoveAt(s, i);
    }
  }

  lemma SurplusAndRecent<K>(s: Items<K>, n: nat)
    ensures Bag(s) == Bag(Surplus(s, n)) + Bag(Recent(s, n)) && |Recent(s, n)| <= n
    ensures NoDup(s) ==> NoDup(Recent(s, n))
    ensures Filed(s) ==> Filed(Recent(s, n))
  {
    assert s == Surplus(s, n) + Recent(s, n);
    BagConcat(Surplus(s, n), Recent(s, n));
  }

  /** What is cached after a deduplicate, plus what it notified, is what was cached plus the newcomer. */
  lemma DeduplicateMoves<K>(s: Items<K>, size: int, item: Item<K>)
    requires NoDup(s)
    ensures var o := Deduplicate(s, size, item);
            Bag(o.items) + multiset(o.evicted) == Bag(s) + Newcomer(Recent(s, Limit(size)), item)
  {
    var n := Limit(size);
    var s1, out := Recent(s, n), Surplus(s, n);
    SurplusAndRecent(s, n);
    FittingMoves(s1, n, item);
    var o1 := DeduplicateFitting(s1, n, item);
    assert multiset(Bodies(out) + o1.evicted) == Bag(out) + multiset(o1.evicted);
    BagAlgebra(Bag(s), Bag(s1), Bag(out), Newcomer(s1, item), Bag(o1.items), multiset(o1.evicted));
  }

  lemma BagAlgebra<T>(all: multiset<T>, items: multiset<T>, gone: multiset<T>, extra: multiset<T>,
                      items': multiset<T>, out: multiset<T>)
    requires all == items + gone && items' + out == items + extra
    ensures all + extra == items' + (gone + out)
  {
    forall x
      ensures (all + extra)[x] == (items' + (gone + out))[x]
    {
      assert (items' + out)[x] == (items + extra)[x];
    }
  }

  lemma DedupConserves<K>(s: State<K>, item: Item<K>)
    requires Conserves(s)
    ensures Conserves(Step(s, Dedup(item)))
  {
    var s', o := Step(s, Dedup(item)), Deduplicate(s.items, s.size, item);
    var s1 := Recent(s.items, Limit(s.size));
    SurplusAndRecent(s.items, Limit(s.size));
    FittingFiles(s1, Limit(s.size), item);
    DeduplicateMoves(s.items, s.size, item);
    assert multiset(s'.evicted) == multiset(s.evicted) + multiset(o.evicted);
    assert multiset(s'.entered) == multiset(s.entered) + Newcomer(s1, item);
    BagAlgebra(multiset(s.entered), Bag(s.items), multiset(s.evicted), Newcomer(s1, item), Bag(o.items), multiset(o.evicted));
  }

  lemma FlushConserves<K>(s: State<K>)
    requires Conserves(s)
    ensures Conserves(Step(s, FlushAll))
  {
    var s' := Step(s, FlushAll);
    assert multiset(s'.evicted) == multiset(s.evicted) + multiset(Bodies(s.items));
    assert Bodies(s'.items) == [];
  }

  /** Over any run every value that entered is cached or was notified, exactly once either way;
      in particular a flush notifies all that is left. */
  lemma {:induction false} EveryDepartureNotified<K>(size: int, ops: seq<Op<K>>)
    ensures Conserves(Run(size, ops))
  {
    if ops == [] {
      assert Bodies(Run(size, ops).items) == [];
    } else {
      EveryDepartureNotified(size, ops[..|ops| - 1]);
      var s, op := Run(size, ops[..|ops| - 1]), ops[|ops| - 1];
      if op.Dedup? { DedupConserves(s, op.item); } else if op.FlushAll? { FlushConserves(s); }
    }
  }

  // ---- the answers --------------------------------------------------------------------------

  /** What a client and its items see of a run: items notified, and items handed out for arguments. */
  datatype Event<K> = Notified(item: Item<K>) | Answered(argument: Item<K>, result: Item<K>)

  function Notices<K>(items: seq<Item<K>>): seq<Event<K>> {
    seq(|items|, i requires 0 <= i < |items| => Notified(items[i]))
  }

  function Events<K(==)>(s: State<K>, op: Op<K>): seq<Event<K>> {
    match op
    case Dedup(item) =>
      var o := Deduplicate(s.items, s.size, item);
      Notices(o.evicted) + [Answered(item, o.result)]
    case FlushAll => Notices(Bodies(s.items))
    case SetSize(_) => []
  }

  function Trace<K(==)>(size: int, ops: seq<Op<K>>): seq<Event<K>> {
    if ops == [] then []
    else Trace(size, ops[..|ops| - 1]) + Events(Run(size, ops[..|ops| - 1]), ops[|ops| - 1])
  }

  /** The item last handed out for the key, unless it has been notified since. */
  function Holder<K(==)>(trace: seq<Event<K>>, k: K): Option<Item<K>> {
    if trace == [] then None
    else
      match trace[|trace| - 1]
      case Notified(item) => if item.key == k then None else Holder(trace[..|trace| - 1], k)
      case Answered(argument, result) => if argument.key == k then Some(result) else Holder(trace[..|trace| - 1], k)
  }

  /** An event is right after a trace: an answer is the item held under the key, or the argument if there is none;
      a notice goes to an item that is held. */
  predicate Right<K(==)>(trace: seq<Event<K>>, e: Event<K>) {
    match e
    case Notified(item) => Holder(trace, item.key) == Some(item)
    case Answered(argument, result) =>
      result == if Holder(trace, argument.key).Some? then Holder(trace, argument.key).value else argument
  }

  ghost predicate AllRight<K>(trace: seq<Event<K>>) {
    forall i :: 0 <= i < |trace| ==> Right(trace[..i], trace[i])
  }

  /** The cache holds under every key what the trace says. */
  ghost predicate Held<K(!new)>(trace: seq<Event<K>>, s: Items<K>) {
    NoDup(s) && Filed(s) && forall k :: Find(s, k) == Holder(trace, k)
  }

  lemma HolderAfter<K>(trace: seq<Event<K>>, e: Event<K>, k: K)
    ensures Holder(trace + [e], k) ==
              match e {
                case Notified(item) => if item.key == k then None else Holder(trace, k)
                case Answered(argument, result) => if argument.key == k then Some(result) else Holder(trace, k)
              }
  {
    assert (trace + [e])[..|trace|] == trace;
  }

  lemma OneMoreRight<K>(trace: seq<Event<K>>, e: Event<K>)
    requires AllRight(trace) && Right(trace, e)
    ensures AllRight(trace + [e])
  {
    var t := trace + [e];
    forall i | 0 <= i < |t|
      ensures Right(t[..i], t[i])
    {
      if i < |trace| { assert t[..i] == trace[..i]; } else { assert t[..i] == trace; }
    }
  }

  /** The front entry leaves: only its key is no longer found. */
  lemma FindWithoutFront<K>(s: Items<K>, k: K)
    requires s != [] && NoDup(s)
    ensures Find(s, s[0].0) == Some(s[0].1) && Find(s[1..], k) == if k == s[0].0 then None else Find(s, k)
  {
    RemoveAt(s, 0);
    if i :| 0 < i < |s| && s[i].0 == k {
      RemoveAt(s, i);
      assert s[1..][i - 1] == s[i];
      RemoveAt(s[1..], i - 1);
    } else {
      RemoveAbsent(s[1..], k);
      if k != s[0].0 { RemoveAbsent(s, k); }
    }
  }

  /** Items leave from the front, each with its notice. */
  lemma {:induction false} Leave<K(!new)>(trace: seq<Event<K>>, s: Items<K>, n: nat)
    requires Held(trace, s) && AllRight(trace) && n <= |s|
    ensures var t := trace + Notices(Bodies(s[..n])); AllRight(t) && Held(t, s[n..])
  {
    if n == 0 {
      assert s[0..] == s && Notices(Bodies(s[..0])) == [] && trace + [] == trace;
    } else {
      Leave(trace, s, n - 1);
      var t, rest := trace + Notices(Bodies(s[..n - 1])), s[n - 1..];
      LeaveOne(t, rest);
      assert rest[1..] == s[n..];
      assert trace + Notices(Bodies(s[..n])) == t + [Notified(s[n - 1].1)];
    }
  }

  lemma LeaveOne<K(!new)>(trace: seq<Event<K>>, s: Items<K>)
    requires Held(trace, s) && AllRight(trace) && s != []
    ensures var t := trace + [Notified(s[0].1)]; AllRight(t) && Held(t, s[1..])
  {
    FindWithoutFront(s, s[0].0);
    OneMoreRight(trace, Notified(s[0].1));
    forall k
      ensures Find(s[1..], k) == Holder(trace + [Notified(s[0].1)], k)
    {
      FindWithoutFront(s, k);
      HolderAfter(trace, Notified(s[0].1), k);
    }
  }

  lemma FindAppended<K>(s: Items<K>, e: (K, Item<K>), k: K)
    ensures Find(s + [e], k) == if e.0 == k then Some(e.1) else Find(s, k)
  {
    assert (s + [e])[..|s|] == s;
  }

  lemma FindRemoved<K>(s: Items<K>, k: K, x: K)
    requires NoDup(s) && x != k
    ensures Find(Remove(s, k), x) == Find(s, x)
  {
    if j :| 0 <= j < |s| && s[j].0 == x {
      RemoveAt(s, j);
      RemoveKeepsOthers(s, k, x);
      RemoveNoDup(s, k, s[j].1);
      var t := Remove(s, k);
      var at := RemoveKeeps(s, k);
      var i :| 0 <= i < |t| && t[i].0 == x;
      assert (t + [(k, s[j].1)])[..|t|] == t;
      assert NoDup(t);
      RemoveAt(t, i);
    } else {
      var at := RemoveKeeps(s, k);
      RemoveAbsent(Remove(s, k), x);
      RemoveAbsent(s, x);
    }
  }

  /** A known key: its item is handed out and moves to the back. */
  lemma AnswerKnown<K(!new)>(trace: seq<Event<K>>, s: Items<K>, item: Item<K>, known: Item<K>)
    requires Held(trace, s) && AllRight(trace) && Find(s, item.key) == Some(known)
    ensures var t := trace + [Answered(item, known)]; AllRight(t) && Held(t, Remove(s, item.key) + [(item.key, known)])
  {
    OneMoreRight(trace, Answered(item, known));
    RemoveNoDup(s, item.key, known);
    var at := RemoveKeeps(s, item.key);
    FindMember(s, item.key);
    forall k
      ensures Find(Remove(s, item.key) + [(item.key, known)], k) == Holder(trace + [Answered(item, known)], k)
    {
      HolderAfter(trace, Answered(item, known), k);
      FindAppended(Remove(s, item.key), (item.key, known), k);
      if k != item.key { FindRemoved(s, item.key, k); }
    }
  }

  /** A new key: the argument is handed out and joins at the back. */
  lemma AnswerNew<K(!new)>(trace: seq<Event<K>>, s: Items<K>, item: Item<K>)
    requires Held(trace, s) && AllRight(trace) && Find(s, item.key) == None
    ensures var t := trace + [Answered(item, item)]; AllRight(t) && Held(t, s + [(item.key, item)])
  {
    OneMoreRight(trace, Answered(item, item));
    FindMember(s, item.key);
    forall k
      ensures Find(s + [(item.key, item)], k) == Holder(trace + [Answered(item, item)], k)
    {
      HolderAfter(trace, Answered(item, item), k);
      FindAppended(s, (item.key, item), k);
    }
  }

  /** deduplicate on a cache within its size. */
  lemma FittingAnswers<K(!new)>(trace: seq<Event<K>>, s: Items<K>, n: nat, item: Item<K>)
    requires Held(trace, s) && AllRight(trace) && |s| <= n && 0 < n
    ensures var o := DeduplicateFitting(s, n, item);
            var t := trace + Notices(o.evicted) + [Answered(item, o.result)];
            AllRight(t) && Held(t, o.items)
  {
    var o := DeduplicateFitting(s, n, item);
    if Find(s, item.key).Some? || |s| < n {
      assert trace + Notices(o.evicted) == trace;
      if Find(s, item.key).Some? { AnswerKnown(trace, s, item, Find(s, item.key).value); } else { AnswerNew(trace, s, item); }
    } else {
      LeaveOne(trace, s);
      FindWithoutFront(s, item.key);
      assert Notices(o.evicted) == [Notified(s[0].1)];
      AnswerNew(trace + [Notified(s[0].1)], s[1..], item);
    }
  }

  lemma DedupAnswers<K(!new)>(trace: seq<Event<K>>, s: State<K>, item: Item<K>)
    requires Held(trace, s.items) && AllRight(trace)
    ensures var t := trace + Events(s, Dedup(item)); AllRight(t) && Held(t, Deduplicate(s.items, s.size, item).items)
  {
    var n, all := Limit(s.size), s.items;
    var gone, s1 := Surplus(all, n), Recent(all, n);
    Leave(trace, all, |gone|);
    assert all[..|gone|] == gone && all[|gone|..] == s1;
    FittingAnswers(trace + Notices(Bodies(gone)), s1, n, item);
    var o := DeduplicateFitting(s1, n, item);
    NoticesConcat(Bodies(gone), o.evicted);
    Assoc(trace, Notices(Bodies(gone)), Notices(o.evicted));
    Assoc(trace, Notices(Bodies(gone) + o.evicted), [Answered(item, o.result)]);
  }

  lemma NoticesConcat<K>(a: seq<Item<K>>, b: seq<Item<K>>)
    ensures Notices(a + b) == Notices(a) + Notices(b)
  {
  }

  /** Over any run every answer is the item last handed out for the key and not notified since, or the argument if
      there is none; and every notice goes to such an item. */
  lemma {:induction false} EveryAnswerRight<K(!new)>(size: int, ops: seq<Op<K>>)
    ensures AllRight(Trace(size, ops)) && Held(Trace(size, ops), Run(size, ops).items)
  {
    if ops != [] {
      var n := |ops| - 1;
      EveryAnswerRight(size, ops[..n]);
      var trace, s := Trace(size, ops[..n]), Run(size, ops[..n]);
      match ops[n]
      case Dedup(item) => DedupAnswers(trace, s, item);
      case FlushAll =>
        Leave(trace, s.items, |s.items|);
        assert s.items[..|s.items|] == s.items && s.items[|s.items|..] == [];
      case SetSize(_) => assert trace + [] == trace;
    }
  }

  predicate NotifiesKey<K(==)>(e: Event<K>, k: K) {
    e.Notified? && e.item.key == k
  }

  lemma {:induction false} HolderKept<K>(trace: seq<Event<K>>, i: nat, j: nat, k: K)
    requires AllRight(trace) && i < j <= |trace| && trace[i].Answered? && trace[i].argument.key == k
    requires forall m :: i < m < j ==> !NotifiesKey(trace[m], k)
    ensures Holder(trace[..j], k) == Some(trace[i].result)
  {
    assert trace[..j][..j - 1] == trace[..j - 1];
    if i < j - 1 {
      HolderKept(trace, i, j - 1, k);
      assert Right(trace[..j - 1], trace[j - 1]);
      assert !NotifiesKey(trace[j - 1], k);
    }
  }

  /** Two answers for one key with no notice to it between them are the same item. */
  lemma OneItemPerKey<K(!new)>(size: int, ops: seq<Op<K>>, i: nat, j: nat)
    requires i < j < |Trace(size, ops)|
    requires var t := Trace(size, ops); t[i].Answered? && t[j].Answered? && t[i].argument.key == t[j].argument.key
    requires var t := Trace(size, ops); forall m :: i < m < j ==> !NotifiesKey(t[m], t[i].argument.key)
    ensures Trace(size, ops)[i].result == Trace(size, ops)[j].result
  {
    var t := Trace(size, ops);
    EveryAnswerRight(size, ops);
    HolderKept(t, i, j, t[i].argument.key);
    assert Right(t[..j], t[j]);
  }

  // ---- which items stay ---------------------------------------------------------------------

  /** The operation of a plain LRU: a known key is got, a new one put. */
  function LruOp<K(==)>(s: State<K>, op: Op<K>): Lru.Op<K, Item<K>> {
    match op
    case Dedup(item) => if Cached(Recent(s.items, Limit(s.size)), item.key) then Lru.GetOp(item.key) else Lru.PutOp(item.key, item)
    case FlushAll => Lru.FlushOp
    case SetSize(n) => Lru.SetSize(n)
  }

  function AsLru<K(==)>(size: int, ops: seq<Op<K>>): seq<Lru.Op<K, Item<K>>> {
    if ops == [] then []
    else AsLru(size, ops[..|ops| - 1]) + [LruOp(Run(size, ops[..|ops| - 1]), ops[|ops| - 1])]
  }

  lemma StepAsLru<K>(s: State<K>, op: Op<K>)
    requires NoDup(s.items)
    ensures Lru.Step(Cache(s.items, s.size), LruOp(s, op)) == Cache(Step(s, op).items, Step(s, op).size)
  {
    if op.Dedup? {
      var n := Limit(s.size);
      var s1 := Recent(s.items, n);
      FindIsCached(s1, op.item.key);
      FindMember(s1, op.item.key);
      if Find(s1, op.item.key).None? {
        PutAbsent(s1, n, op.item.key, op.item);
        assert Recent(s1, n) == s1;
      }
    }
  }

  /** The items cached after any run are those of a plain LRU, so the ones used last stay, in order of last use, and
      the one that leaves is the least recently used. */
  lemma {:induction false} SameAsLru<K>(size: int, ops: seq<Op<K>>)
    ensures Lru.Run(size, AsLru(size, ops)) == Cache(Run(size, ops).items, Run(size, ops).size)
    ensures Tracks(AsLru(size, ops), Run(size, ops).items)
  {
    if ops != [] {
      var n := |ops| - 1;
      SameAsLru(size, ops[..n]);
      EveryDepartureNotified(size, ops[..n]);
      StepAsLru(Run(size, ops[..n]), ops[n]);
      var lru := AsLru(size, ops);
      assert lru[..|lru| - 1] == AsLru(size, ops[..n]);
    }
    RunsTrack(size, AsLru(size, ops));
  }
}
