/** The index of accepted containers, indexer/index.go: three kinds of entries written through an
overlay and committed together, with restarts that lose what was not committed. */
module Indexer {
  import opened Options
  import opened ByteStrings
  import opened VersionDb
  import opened Faults
  import BigEndian

  type Id = b: Bytes | |b| == 32 witness BigEndian.Digits(0, 32)
  datatype Container = Container(id: Id, bytes: Bytes, timestamp: int)

  /** The keys of the index's database: the next index, containers by index, indices by container. */
  datatype Key = Next | AtIndex(index: nat) | AtId(id: Id)
  datatype Cell = Num(n: nat) | Box(container: Container)

  type Disk = map<Key, Cell>

  // ---- the reference: a list of containers --------------------------------------------------

  predicate Accepted(l: seq<Container>, id: Id) {
    exists i :: 0 <= i < |l| && l[i].id == id
  }

  ghost predicate NoRepeats(l: seq<Container>) {
    forall i, j :: 0 <= i < j < |l| ==> l[i].id != l[j].id
  }

  /** The database holds exactly the list: indices 0 to |l|-1, each with its container, and each
      container's ID with its index. */
  ghost predicate Stores(f: Disk, l: seq<Container>) {
    && NoRepeats(l)
    && Lookup(f, Next) == (if l == [] then None else Some(Num(|l|)))
    && (forall i: nat :: Lookup(f, AtIndex(i)) == if i < |l| then Some(Box(l[i])) else None)
    && (forall i :: 0 <= i < |l| ==> Lookup(f, AtId(l[i].id)) == Some(Num(i)))
    && (forall id :: AtId(id) in f ==> f[AtId(id)].Num? && f[AtId(id)].n < |l| && l[f[AtId(id)].n].id == id)
  }

  /** Index to container and container to index are inverse bijections. */
  lemma Bijection(f: Disk, l: seq<Container>, i: nat, id: Id)
    requires Stores(f, l)
    ensures Lookup(f, AtId(id)) == Some(Num(i)) <==> Lookup(f, AtIndex(i)).Some? && Lookup(f, AtIndex(i)).value.container.id == id
  {
    if i < |l| && l[i].id == id { assert Lookup(f, AtId(l[i].id)) == Some(Num(i)); }
  }

  // ---- the operations -----------------------------------------------------------------------

  datatype State = State(db: Disk, mem: Patch<Key, Cell>, next: nat)

  /** newIndex: an empty overlay, and the next index as stored. */
  function Open(db: Disk): State {
    State(db, map[], if Next in db && db[Next].Num? then db[Next].n else 0)
  }

  function Written(s: State, c: Container): Patch<Key, Cell> {
    s.mem[AtIndex(s.next) := Some(Box(c))][AtId(c.id) := Some(Num(s.next))][Next := Some(Num(s.next + 1))]
  }

  /** Accept; when the commit fails, the writes stay in the overlay. */
  function Accept(s: State, c: Container, commits: bool): State {
    if AtId(c.id) in Patched(s.db, s.mem) then s
    else if commits then State(Patched(s.db, Written(s, c)), map[], s.next + 1)
    else State(s.db, Written(s, c), s.next + 1)
  }

  /** What is read through the overlay after the three writes. */
  function Extended(f: Disk, n: nat, c: Container): Disk {
    f[AtIndex(n) := Box(c)][AtId(c.id) := Num(n)][Next := Num(n + 1)]
  }

  lemma WrittenReads(s: State, c: Container)
    ensures Patched(s.db, Written(s, c)) == Extended(Patched(s.db, s.mem), s.next, c)
  {
    var p1 := s.mem[AtIndex(s.next) := Some(Box(c))];
    var p2 := p1[AtId(c.id) := Some(Num(s.next))];
    PatchedWrite(s.db, s.mem, Write(AtIndex(s.next), Some(Box(c))));
    PatchedWrite(s.db, p1, Write(AtId(c.id), Some(Num(s.next))));
    PatchedWrite(s.db, p2, Write(Next, Some(Num(s.next + 1))));
  }

  lemma ExtendedStores(f: Disk, l: seq<Container>, c: Container)
    requires Stores(f, l) && !Accepted(l, c.id)
    ensures Stores(Extended(f, |l|, c), l + [c])
  {
    var f', l' := Extended(f, |l|, c), l + [c];
    forall i: nat
      ensures Lookup(f', AtIndex(i)) == if i < |l'| then Some(Box(l'[i])) else None
    {
      assert Lookup(f, AtIndex(i)) == if i < |l| then Some(Box(l[i])) else None;
    }
    forall i | 0 <= i < |l'|
      ensures Lookup(f', AtId(l'[i].id)) == Some(Num(i))
    {
      if i < |l| { assert Lookup(f, AtId(l[i].id)) == Some(Num(i)); }
    }
    forall id | AtId(id) in f'
      ensures f'[AtId(id)].Num? && f'[AtId(id)].n < |l'| && l'[f'[AtId(id)].n].id == id
    {
      if id != c.id { assert AtId(id) in f; }
    }
  }

  // ---- every history ------------------------------------------------------------------------

  datatype Event = AcceptEvent(container: Container, commits: bool) | RestartEvent

  function Step(s: State, e: Event): State {
    match e
    case AcceptEvent(c, commits) => Accept(s, c, commits)
    case RestartEvent => Open(s.db)
  }

  function Run(events: seq<Event>): State {
    if events == [] then Open(map[]) else Step(Run(events[..|events| - 1]), events[|events| - 1])
  }

  /** What has been committed, and what has been accepted since the last restart. */
  datatype Lists = Lists(durable: seq<Container>, accepted: seq<Container>)

  function StepLists(ls: Lists, e: Event): Lists {
    match e
    case RestartEvent => ls.(accepted := ls.durable)
    case AcceptEvent(c, commits) =>
      if Accepted(ls.accepted, c.id) then ls
      else Lists(if commits then ls.accepted + [c] else ls.durable, ls.accepted + [c])
  }

  function RunLists(events: seq<Event>): Lists {
    if events == [] then Lists([], []) else StepLists(RunLists(events[..|events| - 1]), events[|events| - 1])
  }

  ghost predicate Ok(s: State, ls: Lists) {
    && Stores(s.db, ls.durable) && Stores(Patched(s.db, s.mem), ls.accepted)
    && s.next == |ls.accepted| && ls.durable <= ls.accepted
  }

  lemma PatchedNothing(f: Disk)
    ensures Patched(f, map[]) == f
  {
  }

  lemma AcceptOk(s: State, ls: Lists, c: Container, commits: bool)
    requires Ok(s, ls)
    ensures Ok(Accept(s, c, commits), StepLists(ls, AcceptEvent(c, commits)))
  {
    if !Accepted(ls.accepted, c.id) {
      WrittenReads(s, c);
      ExtendedStores(Patched(s.db, s.mem), ls.accepted, c);
      PatchedNothing(Patched(s.db, Written(s, c)));
    }
  }

  lemma RestartOk(s: State, ls: Lists)
    requires Ok(s, ls)
    ensures Ok(Open(s.db), StepLists(ls, RestartEvent))
  {
    PatchedNothing(s.db);
    assert Lookup(s.db, Next) == if ls.durable == [] then None else Some(Num(|ls.durable|));
  }

  /** Across any history of accepts, failed commits and restarts the database holds exactly the list
      of what was committed, and the overlay on it exactly the list of what was accepted. */
  lemma {:induction false} RunOk(events: seq<Event>)
    ensures Ok(Run(events), RunLists(events))
  {
    if events == [] {
    } else {
      var n := |events| - 1;
      RunOk(events[..n]);
      var s, ls := Run(events[..n]), RunLists(events[..n]);
      match events[n]
      case AcceptEvent(c, commits) => AcceptOk(s, ls, c, commits);
      case RestartEvent => RestartOk(s, ls);
    }
  }

  /** Accepting again changes nothing. */
  lemma ReacceptIsNothing(s: State, ls: Lists, c: Container, c': Container, commits: bool, commits': bool)
    requires Ok(s, ls) && c.id == c'.id
    ensures Accept(Accept(s, c, commits), c', commits') == Accept(s, c, commits)
  {
    AcceptOk(s, ls, c, commits);
    var s', ls' := Accept(s, c, commits), StepLists(ls, AcceptEvent(c, commits));
    if !Accepted(ls.accepted, c.id) { assert ls'.accepted[|ls.accepted|].id == c.id; }
  }

  /** Once committed, a container keeps its index for good. */
  lemma {:induction false} DurableGrows(events: seq<Event>, m: nat)
    requires m <= |events|
    ensures RunLists(events[..m]).durable <= RunLists(events).durable
  {
    if m == |events| {
      assert events[..m] == events;
    } else {
      var n := |events| - 1;
      assert events[..n][..m] == events[..m];
      DurableGrows(events[..n], m);
      RunOk(events[..n]);
    }
  }

  // ---- in place -----------------------------------------------------------------------------

  const MAX_FETCHED_BY_RANGE := 1024
  const TWO_63 := 0x8000_0000_0000_0000
  const TWO_64 := 0x1_0000_0000_0000_0000

  const NoContainer := Container(BigEndian.Digits(0, 32), [], 0)

  /** int(u) for a uint64 u */
  function AsInt(u: int): int {
    if u >= TWO_63 then u - TWO_64 else u
  }

  /** The int that 64 bits of x make. */
  function Wrap(x: int): int {
    AsInt(x % TWO_64)
  }

  datatype Range = NumToFetchZero | TooMany | NoneAccepted | StartTooLarge | Containers(containers: seq<Container>)

  /** The last index that GetContainerRange fetches, in uint64 arithmetic. */
  function LastFetched(start: nat, num: nat, next: nat): int {
    var last := (start + num - 1) % TWO_64;
    if last < next - 1 then last else next - 1
  }

  /** int(last) - int(start) + 1, in int arithmetic. */
  function Size(start: nat, last: int): int {
    Wrap(Wrap(AsInt(last) - AsInt(start)) + 1)
  }

  /** The size is that of the run from start to last on the circle of uint64 values, wherever the two lie. */
  lemma SizeIsCount(start: nat, last: nat, size: nat)
    requires start < TWO_64 && last < TWO_64 && 0 < size <= MAX_FETCHED_BY_RANGE
    requires last == (start + size - 1) % TWO_64
    ensures Size(start, last) == size
  {
    var d := AsInt(last) - AsInt(start);
    assert d == size - 1 || d == size - 1 - TWO_64 || d == size - 1 + TWO_64;
    assert d % TWO_64 == size - 1;
  }

  /** The accepted run from start on, as long as asked for and no further than the last one; but
      when the uint64 sum wraps around, that many blank containers. */
  function Expected(l: seq<Container>, start: nat, num: nat): Range {
    if num == 0 then NumToFetchZero
    else if num > MAX_FETCHED_BY_RANGE then TooMany
    else if l == [] then NoneAccepted
    else if start >= |l| then StartTooLarge
    else if start + num - 1 >= TWO_64 then Containers(seq(num, _ => NoContainer))
    else Containers(l[start..EndOfRun(l, start, num)])
  }

  /** Where the run from start on ends. */
  function EndOfRun(l: seq<Container>, start: nat, num: nat): nat {
    if start + num < |l| then start + num else |l|
  }

  /** A request that passes the checks is answered with the accepted run exactly if the sum does not wrap
      around. */
  lemma RangeExactly(l: seq<Container>, start: nat, num: nat)
    requires 0 < num <= MAX_FETCHED_BY_RANGE && start < |l| < TWO_64
    ensures Expected(l, start, num) == Containers(l[start..EndOfRun(l, start, num)]) <==> start + num - 1 < TWO_64
  {
    if start + num - 1 >= TWO_64 {
      var blanks := seq(num, _ => NoContainer);
      assert Expected(l, start, num) == Containers(blanks);
      assert |l[start..EndOfRun(l, start, num)]| < |blanks|;
    }
  }

  /** The n-th of the IDs. */
  function NthId(n: nat): Id {
    BigEndian.Digits(n, 32)
  }

  lemma {:induction false} RangeAtLeast(w: nat)
    ensures BigEndian.Range(w + 8) >= TWO_64
  {
    if w == 0 {
      assert BigEndian.Range(4) == 0x1_0000_0000;
      assert BigEndian.Range(6) == 0x1_0000_0000_0000;
    } else {
      RangeAtLeast(w - 1);
    }
  }

  lemma NthIdsDiffer(m: nat, n: nat)
    requires m < n < TWO_64
    ensures NthId(m) != NthId(n)
  {
    RangeAtLeast(24);
    BigEndian.NumberOfDigits(m, 32);
    BigEndian.NumberOfDigits(n, 32);
  }

  /** A history that accepts n containers. */
  function History(n: nat): seq<Event> {
    seq(n, i requires 0 <= i < n => AcceptEvent(Container(NthId(i), [], 0), true))
  }

  lemma {:induction false} HistoryAccepts(n: nat)
    requires n < TWO_64
    ensures var l := RunLists(History(n)).accepted;
            |l| == n && forall i :: 0 <= i < n ==> l[i].id == NthId(i)
  {
    if n > 0 {
      HistoryAccepts(n - 1);
      assert History(n)[..n - 1] == History(n - 1);
      var l := RunLists(History(n - 1)).accepted;
      forall i | 0 <= i < n - 1
        ensures l[i].id != NthId(n - 1)
      {
        NthIdsDiffer(i, n - 1);
      }
    }
  }

  /** An index with 2^64 - 1 containers answers a request for three from the last but one with three blanks. */
  lemma BlankRange()
    ensures var l := RunLists(History(TWO_64 - 1)).accepted;
            |l| == TWO_64 - 1 && Expected(l, TWO_64 - 2, 3) == Containers(seq(3, _ => NoContainer))
  {
    HistoryAccepts(TWO_64 - 1);
  }

  class Index {
    var db: Disk
    var mem: Patch<Key, Cell>
    var next: nat

    /** What is committed, and what is accepted. */
    ghost var durable: seq<Container>
    ghost var accepted: seq<Container>

    ghost function View(): State
      reads this
    {
      State(db, mem, next)
    }

    ghost predicate Valid()
      reads this
    {
      Ok(View(), Lists(durable, accepted))
    }

    /** newIndex over a database that an index has left behind. */
    constructor (disk: Disk, ghost l: seq<Container>)
      requires Stores(disk, l)
      ensures Valid() && db == disk && durable == l && accepted == l && View() == Open(disk)
    {
      db, mem, next := disk, map[], if Next in disk && disk[Next].Num? then disk[Next].n else 0;
      durable, accepted := l, l;
    }

    /** An error from reading leaves everything; one from the commit leaves the writes in the overlay. */
    method AcceptContainer(c: Container, sound: bool) returns (ok: bool)
      requires Valid()
      modifies this
      ensures Valid() && (sound ==> ok)
      ensures || (!ok && View() == old(View()) && durable == old(durable) && accepted == old(accepted))
              || (View() == Accept(old(View()), c, ok) &&
                  Lists(durable, accepted) == StepLists(old(Lists(durable, accepted)), AcceptEvent(c, ok)))
    {
      var fault := Fault(sound);
      if fault {
        return false;
      }
      if AtId(c.id) in Patched(db, mem) {
        return true;
      }
      fault := Fault(sound);
      ok := !fault;
      AcceptOk(View(), Lists(durable, accepted), c, ok);
      ghost var was := View();
      WriteContainer(c);
      if ok {
        db, mem := Patched(db, mem), map[];
        durable := accepted + [c];
      }
      accepted := accepted + [c];
      assert View() == Accept(was, c, ok);
    }

    /** The three writes into the overlay. */
    method WriteContainer(c: Container)
      modifies `mem, `next
      ensures mem == Written(old(View()), c) && next == old(next) + 1
    {
      mem := mem[AtIndex(next) := Some(Box(c))];
      mem := mem[AtId(c.id) := Some(Num(next))];
      next := next + 1;
      mem := mem[Next := Some(Num(next))];
    }

    method ContainerByIndex(i: nat) returns (c: Option<Container>)
      requires Valid()
      ensures c == if i < |accepted| then Some(accepted[i]) else None
    {
      if next == 0 || i > next - 1 {
        return None;
      }
      var f := Patched(db, mem);
      assert Lookup(f, AtIndex(i)) == Some(Box(accepted[i]));
      return Some(f[AtIndex(i)].container);
    }

    method IndexOf(id: Id) returns (i: Option<nat>)
      requires Valid()
      ensures i.Some? <==> Accepted(accepted, id)
      ensures i.Some? ==> i.value < |accepted| && accepted[i.value].id == id
    {
      var f := Patched(db, mem);
      if AtId(id) !in f {
        return None;
      }
      return Some(f[AtId(id)].n);
    }

    method ContainerById(id: Id) returns (c: Option<Container>)
      requires Valid()
      ensures c.Some? <==> Accepted(accepted, id)
      ensures c.Some? ==> c.value in accepted && c.value.id == id
    {
      var i := IndexOf(id);
      if i.None? {
        return None;
      }
      c := ContainerByIndex(i.value);
    }

    method LastAccepted() returns (c: Option<Container>)
      requires Valid()
      ensures c == if accepted == [] then None else Some(accepted[|accepted| - 1])
    {
      if next == 0 {
        return None;
      }
      c := ContainerByIndex(next - 1);
    }

    method ContainerRange(start: nat, num: nat) returns (r: Range)
      requires Valid() && next < TWO_64 && start < TWO_64 && num < TWO_64
      ensures r == Expected(accepted, start, num)
      ensures (r == NumToFetchZero <==> num == 0) && (r == TooMany <==> num > 1024)
      ensures 0 < num <= 1024 ==> (r == NoneAccepted <==> accepted == []) && (r == StartTooLarge <==> 0 < |accepted| <= start)
    {
      if num == 0 {
        return NumToFetchZero;
      } else if num > MAX_FETCHED_BY_RANGE {
        return TooMany;
      }
      if next == 0 {
        return NoneAccepted;
      } else if start > next - 1 {
        return StartTooLarge;
      }
      var last := LastFetched(start, num, next);
      SizeIsCount(start, last, if start + num - 1 >= TWO_64 then num else last - start + 1);
      r := Fetch(start, last, Size(start, last));
    }

    /** The loop from start to last into a slice of the given size. */
    method Fetch(start: nat, last: int, size: nat) returns (r: Range)
      requires Valid() && last < |accepted| && (start <= last ==> size == last - start + 1)
      ensures r == Containers(if start <= last then accepted[start..last + 1] else seq(size, _ => NoContainer))
    {
      var containers := seq(size, _ => NoContainer);
      var n, j := 0, start;
      while j <= last
        invariant n == j - start && |containers| == size && if start <= last then start <= j <= last + 1 else j == start
        invariant start <= last ==> forall k :: 0 <= k < n ==> containers[k] == accepted[start + k]
        invariant start > last ==> containers == seq(size, _ => NoContainer)
      {
        var c := ContainerByIndex(j);
        containers := containers[n := c.value];
        n, j := n + 1, j + 1;
      }
      if start <= last { assert containers == accepted[start..last + 1]; }
      return Containers(containers);
    }
  }
}
