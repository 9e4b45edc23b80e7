/** The reference-counted locks of chains/atomic/memory.go under any number of threads. */
module SharedLocks {
  import opened Options
  import opened ByteStrings

  /** Nothing left to release. */
  predicate Finished(th: Thread) {
    th.pc == Releasing && th.held == []
  }

  /* A thread runs Get, Indexed (one shared ID) or Apply (a strictly sorted list of them): it calls
  GetSharedDatabase for each ID in turn, may stop early on an error, and then runs its deferred
  ReleaseSharedDatabase calls in reverse. Steps are the regions under `Memory.lock` and the
  operations on the individual mutexes. rcLock objects are named by handles. */

  type Id = Bytes
  type Rc = nat

  /** An rcLock, with the shared ID that it was made for. */
  datatype RcLock = RcLock(id: Id, count: int)

  /** What `Memory.lock` guards: the lock table and the rcLock objects. */
  datatype Table = Table(locks: map<Id, Rc>, rcs: map<Rc, RcLock>, next: Rc)

  const EmptyTable := Table(map[], map[], 0)

  /** Every entry points to an rcLock made for its own ID. */
  predicate TableOk(m: Table) {
    && (forall id :: id in m.locks ==> m.locks[id] in m.rcs && m.rcs[m.locks[id]].id == id)
    && (forall rc :: rc in m.rcs ==> rc < m.next)
  }

  function MakeLock(m: Table, id: Id): (r: (Table, Rc))
    requires TableOk(m)
    ensures TableOk(r.0) && id in r.0.locks && r.0.locks[id] == r.1
  {
    if id in m.locks then
      var rc := m.locks[id];
      (m.(rcs := m.rcs[rc := m.rcs[rc].(count := m.rcs[rc].count + 1)]), rc)
    else
      (Table(m.locks[id := m.next], m.rcs[m.next := RcLock(id, 1)], m.next + 1), m.next)
  }

  /** None is the panic on an unknown lock. */
  function ReleaseLock(m: Table, id: Id): (r: (Table, Option<Rc>))
    requires TableOk(m)
    ensures TableOk(r.0) && r.1 == if id in m.locks then Some(m.locks[id]) else None
  {
    if id !in m.locks then (m, None)
    else
      var rc := m.locks[id];
      var count := m.rcs[rc].count - 1;
      (m.(rcs := m.rcs[rc := m.rcs[rc].(count := count)], locks := if count == 0 then m.locks - {id} else m.locks),
       Some(rc))
  }

  /** The same two operations performed in place. */
  class Memory {
    var locks: map<Id, Rc>
    var rcs: map<Rc, RcLock>
    var next: Rc

    ghost function View(): Table
      reads this
    {
      Table(locks, rcs, next)
    }

    constructor ()
      ensures View() == EmptyTable
    {
      locks, rcs, next := map[], map[], 0;
    }

    method MakeLockFor(id: Id) returns (rc: Rc)
      requires TableOk(View())
      modifies this
      ensures (View(), rc) == MakeLock(old(View()), id)
    {
      if id in locks {
        rc := locks[id];
      } else {
        rc := next;
        next := next + 1;
        rcs := rcs[rc := RcLock(id, 0)];
        locks := locks[id := rc];
      }
      rcs := rcs[rc := rcs[rc].(count := rcs[rc].count + 1)];
      assert id !in old(locks) ==> rcs == old(rcs)[rc := RcLock(id, 1)];
    }

    method ReleaseLockFor(id: Id) returns (rc: Option<Rc>)
      requires TableOk(View())
      modifies this
      ensures (View(), rc) == ReleaseLock(old(View()), id)
    {
      if id !in locks {
        return None;
      }
      var r := locks[id];
      rcs := rcs[r := rcs[r].(count := rcs[r].count - 1)];
      if rcs[r].count == 0 {
        locks := locks - {id};
      }
      return Some(r);
    }
  }

  // ---- threads ------------------------------------------------------------------------------

  datatype Pc =
    | Acquiring
    | Waiting(rc: Rc)     // makeLock returned rc, blocked in rc.lock.Lock()
    | Releasing
    | Unlocking(rc: Rc)   // releaseLock returned rc, about to call Unlock()

  /** `held` are the mutexes locked so far, held[i] for ids[i]. */
  datatype Thread = Thread(ids: seq<Id>, held: seq<Rc>, pc: Pc)

  /** `mutex` maps every locked mutex to the thread that locked it. */
  datatype State = State(table: Table, mutex: map<Rc, nat>, threads: seq<Thread>, panicked: bool)

  datatype Step =
    | Make(t: nat)
    | Lock(t: nat)
    | Finish(t: nat)      // the body is over, or returned an error: deferred releases start
    | Release(t: nat)
    | Unlock(t: nat)

  predicate Enabled(s: State, step: Step) {
    step.t < |s.threads| &&
    var th := s.threads[step.t];
    match step
    case Make(_) => th.pc == Acquiring && |th.held| < |th.ids|
    case Lock(_) => th.pc.Waiting? && th.pc.rc !in s.mutex
    case Finish(_) => th.pc == Acquiring && (|th.held| > 0 || th.ids == [])
    case Release(_) => th.pc == Releasing && 0 < |th.held| <= |th.ids|
    case Unlock(_) => th.pc.Unlocking?
  }

  function Apply(s: State, step: Step): State
    requires TableOk(s.table) && Enabled(s, step)
  {
    var t := step.t;
    var th := s.threads[t];
    match step
    case Make(_) =>
      var (table, rc) := MakeLock(s.table, th.ids[|th.held|]);
      s.(table := table, threads := s.threads[t := th.(pc := Waiting(rc))])
    case Lock(_) =>
      var rc := th.pc.rc;
      s.(mutex := s.mutex[rc := t], threads := s.threads[t := th.(held := th.held + [rc], pc := Acquiring)])
    case Finish(_) => s.(threads := s.threads[t := th.(pc := Releasing)])
    case Release(_) =>
      var k := |th.held| - 1;
      var (table, rc) := ReleaseLock(s.table, th.ids[k]);
      if rc.None? then s.(panicked := true)
      else s.(table := table, threads := s.threads[t := th.(held := th.held[..k], pc := Unlocking(rc.value))])
    case Unlock(_) =>
      s.(mutex := s.mutex - {th.pc.rc}, threads := s.threads[t := th.(pc := Releasing)])
  }

  /** Every thread starts with an empty hand and a strictly sorted list of IDs. */
  predicate Start(s: State) {
    && s.table == EmptyTable && s.mutex == map[] && !s.panicked
    && forall t :: 0 <= t < |s.threads| ==>
         s.threads[t].held == [] && s.threads[t].pc == Acquiring && StrictlySorted(s.threads[t].ids)
  }

  ghost predicate IsRun(run: seq<State>, steps: seq<Step>) {
    && |run| == |steps| + 1
    && Start(run[0])
    && forall i :: 0 <= i < |steps| ==>
         TableOk(run[i].table) && Enabled(run[i], steps[i]) && run[i + 1] == Apply(run[i], steps[i])
  }

  // ---- invariant ----------------------------------------------------------------------------

  /** The number of IDs for which the thread has called makeLock and not yet releaseLock. */
  function Claimed(th: Thread): nat {
    |th.held| + if th.pc.Waiting? then 1 else 0
  }

  predicate Claims(th: Thread, id: Id) {
    Claimed(th) <= |th.ids| && id in th.ids[..Claimed(th)]
  }

  predicate Owns(th: Thread, rc: Rc) {
    rc in th.held || th.pc == Unlocking(rc)
  }

  ghost function Users(threads: seq<Thread>, id: Id): set<nat> {
    set t | 0 <= t < |threads| && Claims(threads[t], id)
  }

  predicate ThreadOk(table: Table, th: Thread) {
    && StrictlySorted(th.ids) && Claimed(th) <= |th.ids|
    && (forall i :: 0 <= i < |th.held| ==> th.ids[i] in table.locks && table.locks[th.ids[i]] == th.held[i])
    && (th.pc.Waiting? ==> th.ids[|th.held|] in table.locks && table.locks[th.ids[|th.held|]] == th.pc.rc)
    && (th.pc.Unlocking? ==> th.pc.rc !in th.held && th.pc.rc < table.next)
  }

  /** The count of an entry is the number of its holders and waiters, and an unused entry is gone. */
  ghost predicate CountOk(table: Table, threads: seq<Thread>, id: Id) {
    id in table.locks ==>
      table.locks[id] in table.rcs && table.rcs[table.locks[id]].count == |Users(threads, id)| > 0
  }

  ghost predicate CountsOk(table: Table, threads: seq<Thread>) {
    forall id :: CountOk(table, threads, id)
  }

  ghost predicate ThreadsOk(table: Table, threads: seq<Thread>) {
    forall t :: 0 <= t < |threads| ==> ThreadOk(table, threads[t])
  }

  ghost predicate MutexOk(mutex: map<Rc, nat>, threads: seq<Thread>) {
    && (forall rc :: rc in mutex ==> mutex[rc] < |threads| && Owns(threads[mutex[rc]], rc))
    && (forall t, rc :: 0 <= t < |threads| && Owns(threads[t], rc) ==> rc in mutex && mutex[rc] == t)
  }

  ghost predicate Inv(s: State) {
    && TableOk(s.table)
    && ThreadsOk(s.table, s.threads)
    && CountsOk(s.table, s.threads)
    && MutexOk(s.mutex, s.threads)
    && !s.panicked
  }

  lemma NextClaim(th: Thread)
    requires StrictlySorted(th.ids) && |th.held| < |th.ids|
    ensures th.ids[|th.held|] !in th.ids[..|th.held|]
    ensures th.ids[..|th.held| + 1] == th.ids[..|th.held|] + [th.ids[|th.held|]]
  {
    forall i | 0 <= i < |th.held|
      ensures th.ids[i] != th.ids[|th.held|]
    {
      Asymmetric(th.ids[i], th.ids[|th.held|]);
    }
  }

  lemma UsersChange(threads: seq<Thread>, t: nat, th: Thread, id: Id)
    requires t < |threads|
    ensures Users(threads[t := th], id) ==
            if Claims(th, id) then Users(threads, id) + {t} else Users(threads, id) - {t}
  {
  }

  lemma NoUsers(table: Table, threads: seq<Thread>, id: Id)
    requires ThreadsOk(table, threads) && id !in table.locks
    ensures Users(threads, id) == {}
  {
    forall t | 0 <= t < |threads| && Claims(threads[t], id)
      ensures false
    {
    }
  }

  lemma CountsSame(table: Table, threads: seq<Thread>, t: nat, th: Thread)
    requires CountsOk(table, threads) && t < |threads| && forall id :: Claims(th, id) <==> Claims(threads[t], id)
    ensures CountsOk(table, threads[t := th])
  {
    var threads' := threads[t := th];
    forall id
      ensures CountOk(table, threads', id)
    {
      assert CountOk(table, threads, id);
      UsersChange(threads, t, th, id);
      assert Users(threads', id) == Users(threads, id);
    }
  }

  // ---- makeLock ----

  lemma MakeThreadOk(table: Table, th: Thread)
    requires TableOk(table) && ThreadOk(table, th) && th.pc == Acquiring && |th.held| < |th.ids|
    ensures var id := th.ids[|th.held|];
            var (table', rc) := MakeLock(table, id);
            ThreadOk(table', th.(pc := Waiting(rc))) && !Claims(th, id) &&
            forall i :: Claims(th.(pc := Waiting(rc)), i) <==> Claims(th, i) || i == id
  {
    NextClaim(th);
  }

  lemma MakeCount(table: Table, threads: seq<Thread>, t: nat, th: Thread, id: Id, i: Id)
    requires TableOk(table) && ThreadsOk(table, threads) && CountOk(table, threads, i) && t < |threads|
    requires !Claims(threads[t], id) && forall j :: Claims(th, j) <==> Claims(threads[t], j) || j == id
    ensures CountOk(MakeLock(table, id).0, threads[t := th], i)
  {
    var users, users' := Users(threads, i), Users(threads[t := th], i);
    UsersChange(threads, t, th, i);
    if i == id {
      assert t !in users && users' == users + {t};
      if id !in table.locks { NoUsers(table, threads, id); }
    } else {
      assert t in users <==> Claims(threads[t], i);
      assert users' == users;
    }
  }

  lemma MakeKeeps(s: State, t: nat)
    requires Inv(s) && Enabled(s, Make(t))
    ensures Inv(Apply(s, Make(t)))
  {
    var s', th := Apply(s, Make(t)), s.threads[t];
    var id, th' := th.ids[|th.held|], s'.threads[t];
    MakeThreadOk(s.table, th);
    forall u | 0 <= u < |s.threads|
      ensures ThreadOk(s'.table, s'.threads[u])
    {
    }
    forall i
      ensures CountOk(s'.table, s'.threads, i)
    {
      assert CountOk(s.table, s.threads, i);
      MakeCount(s.table, s.threads, t, th', id, i);
    }
  }

  // ---- Lock, Finish and Unlock ----

  lemma LockKeeps(s: State, t: nat)
    requires Inv(s) && Enabled(s, Lock(t))
    ensures Inv(Apply(s, Lock(t)))
  {
    var s', th := Apply(s, Lock(t)), s.threads[t];
    var th' := s'.threads[t];
    assert ThreadOk(s.table, th);
    assert ThreadOk(s.table, th');
    CountsSame(s.table, s.threads, t, th');
  }

  lemma FinishKeeps(s: State, t: nat)
    requires Inv(s) && Enabled(s, Finish(t))
    ensures Inv(Apply(s, Finish(t)))
  {
    var s' := Apply(s, Finish(t));
    CountsSame(s.table, s.threads, t, s'.threads[t]);
  }

  lemma UnlockMutex(mutex: map<Rc, nat>, threads: seq<Thread>, t: nat, rc: Rc, th: Thread)
    requires MutexOk(mutex, threads) && t < |threads| && Owns(threads[t], rc) && !Owns(th, rc)
    requires forall r :: r != rc ==> (Owns(th, r) <==> Owns(threads[t], r))
    ensures MutexOk(mutex - {rc}, threads[t := th])
  {
    var mutex', threads' := mutex - {rc}, threads[t := th];
    assert mutex[rc] == t;
    forall u, r | 0 <= u < |threads| && Owns(threads'[u], r)
      ensures r in mutex' && mutex'[r] == u
    {
      assert Owns(threads[u], r);
      assert mutex[r] == u;
    }
  }

  lemma UnlockKeeps(s: State, t: nat)
    requires Inv(s) && Enabled(s, Unlock(t))
    ensures Inv(Apply(s, Unlock(t)))
  {
    var s', th := Apply(s, Unlock(t)), s.threads[t];
    assert ThreadOk(s.table, th);
    CountsSame(s.table, s.threads, t, s'.threads[t]);
    UnlockMutex(s.mutex, s.threads, t, th.pc.rc, s'.threads[t]);
  }

  // ---- releaseLock ----

  function AfterRelease(th: Thread): Thread
    requires 0 < |th.held|
  {
    var k := |th.held| - 1;
    th.(held := th.held[..k], pc := Unlocking(th.held[k]))
  }

  /** What the thread still claims after giving up the last ID it holds. */
  lemma LastClaim(table: Table, th: Thread)
    requires TableOk(table) && ThreadOk(table, th) && 0 < |th.held| && th.pc == Releasing
    ensures var k := |th.held| - 1;
            && Claims(th, th.ids[k])
            && (forall id :: Claims(AfterRelease(th), id) <==> Claims(th, id) && id != th.ids[k])
            && (forall rc :: Owns(AfterRelease(th), rc) <==> Owns(th, rc))
            && th.held[k] !in th.held[..k]
            && ReleaseLock(table, th.ids[k]).1 == Some(th.held[k])
  {
    var k := |th.held| - 1;
    assert th.ids[..k + 1] == th.ids[..k] + [th.ids[k]] && th.held == th.held[..k] + [th.held[k]];
    forall i | 0 <= i < k
      ensures th.ids[i] != th.ids[k] && th.held[i] != th.held[k]
    {
      Asymmetric(th.ids[i], th.ids[k]);
      assert table.rcs[th.held[i]].id == th.ids[i];
    }
  }

  lemma ReleaseCount(table: Table, threads: seq<Thread>, t: nat, th: Thread, id: Id, i: Id)
    requires TableOk(table) && CountOk(table, threads, i) && t < |threads| && id in table.locks
    requires Claims(threads[t], id) && forall j :: Claims(th, j) <==> Claims(threads[t], j) && j != id
    ensures CountOk(ReleaseLock(table, id).0, threads[t := th], i)
    ensures i == id && id !in ReleaseLock(table, id).0.locks ==> Users(threads, id) == {t}
  {
    UsersChange(threads, t, th, i);
    if i == id {
      assert t in Users(threads, id);
      assert Users(threads, id) == (Users(threads, id) - {t}) + {t};
    } else {
      assert Users(threads[t := th], i) == Users(threads, i);
    }
  }

  /** Dropping the entry is safe for every other thread: the count reached zero, so none claims it. */
  lemma ReleaseThreadOk(table: Table, threads: seq<Thread>, t: nat, id: Id, u: nat)
    requires TableOk(table) && t < |threads| && u < |threads| && u != t && ThreadOk(table, threads[u])
    requires id in table.locks && (id !in ReleaseLock(table, id).0.locks ==> Users(threads, id) == {t})
    ensures ThreadOk(ReleaseLock(table, id).0, threads[u])
  {
    if Claims(threads[u], id) { assert u in Users(threads, id); }
  }

  lemma ReleaseOwnThreadOk(table: Table, th: Thread)
    requires TableOk(table) && ThreadOk(table, th) && 0 < |th.held| && th.pc == Releasing
    ensures ThreadOk(ReleaseLock(table, th.ids[|th.held| - 1]).0, AfterRelease(th))
  {
    LastClaim(table, th);
    var th1 := AfterRelease(th);
    assert ThreadOk(table, th1);
  }

  lemma ReleaseKeeps(s: State, t: nat)
    requires Inv(s) && Enabled(s, Release(t))
    ensures Inv(Apply(s, Release(t)))
  {
    var s', th := Apply(s, Release(t)), s.threads[t];
    var id := th.ids[|th.held| - 1];
    LastClaim(s.table, th);
    ReleaseOwnThreadOk(s.table, th);
    forall i
      ensures CountOk(s'.table, s'.threads, i)
    {
      assert CountOk(s.table, s.threads, i);
      ReleaseCount(s.table, s.threads, t, AfterRelease(th), id, i);
    }
    assert CountOk(s.table, s.threads, id);
    ReleaseCount(s.table, s.threads, t, AfterRelease(th), id, id);
    forall u | 0 <= u < |s.threads|
      ensures ThreadOk(s'.table, s'.threads[u])
    {
      if u != t { ReleaseThreadOk(s.table, s.threads, t, id, u); }
    }
  }

  lemma InvKept(s: State, step: Step)
    requires Inv(s) && Enabled(s, step)
    ensures Inv(Apply(s, step))
  {
    match step
    case Make(t) => MakeKeeps(s, t);
    case Lock(t) => LockKeeps(s, t);
    case Finish(t) => FinishKeeps(s, t);
    case Release(t) => ReleaseKeeps(s, t);
    case Unlock(t) => UnlockKeeps(s, t);
  }

  // ---- results over whole runs --------------------------------------------------------------

  lemma StartInv(s: State)
    requires Start(s)
    ensures Inv(s)
  {
  }

  lemma {:induction false} Reachable(run: seq<State>, steps: seq<Step>, i: nat)
    requires IsRun(run, steps) && i < |run|
    ensures Inv(run[i])
  {
    if i == 0 {
      StartInv(run[0]);
    } else {
      Reachable(run, steps, i - 1);
      InvKept(run[i - 1], steps[i - 1]);
    }
  }

  /** The thread is between GetSharedDatabase and ReleaseSharedDatabase for this ID. */
  predicate Inside(th: Thread, id: Id) {
    |th.held| <= |th.ids| && id in th.ids[..|th.held|]
  }

  lemma MutualExclusion(run: seq<State>, steps: seq<Step>, i: nat, t: nat, u: nat, id: Id)
    requires IsRun(run, steps) && i < |run| && t < |run[i].threads| && u < |run[i].threads|
    requires Inside(run[i].threads[t], id) && Inside(run[i].threads[u], id)
    ensures t == u
  {
    Reachable(run, steps, i);
    OneInside(run[i], t, u, id);
  }

  lemma OneInside(s: State, t: nat, u: nat, id: Id)
    requires Inv(s) && t < |s.threads| && u < |s.threads| && Inside(s.threads[t], id) && Inside(s.threads[u], id)
    ensures t == u
  {
    var a :| 0 <= a < |s.threads[t].held| && s.threads[t].ids[a] == id;
    var b :| 0 <= b < |s.threads[u].held| && s.threads[u].ids[b] == id;
    assert ThreadOk(s.table, s.threads[t]) && ThreadOk(s.table, s.threads[u]);
    assert Owns(s.threads[t], s.threads[t].held[a]) && Owns(s.threads[u], s.threads[u].held[b]);
    assert s.mutex[s.table.locks[id]] == t;
  }

  /** Each count is the number of holders and waiters, and releasing never meets an unknown lock. */
  lemma CountsAreHoldersAndWaiters(run: seq<State>, steps: seq<Step>, i: nat, id: Id)
    requires IsRun(run, steps) && i < |run|
    ensures !run[i].panicked
    ensures id in run[i].table.locks <==> Users(run[i].threads, id) != {}
    ensures id in run[i].table.locks ==>
              run[i].table.locks[id] in run[i].table.rcs &&
              run[i].table.rcs[run[i].table.locks[id]].count == |Users(run[i].threads, id)|
  {
    Reachable(run, steps, i);
    assert CountOk(run[i].table, run[i].threads, id);
    if id !in run[i].table.locks { NoUsers(run[i].table, run[i].threads, id); }
  }

  // ---- no deadlock ----

  /** The threads blocked on an ID above `id`. */
  ghost function BlockedAbove(threads: seq<Thread>, id: Id): set<nat> {
    set t | 0 <= t < |threads| && threads[t].pc.Waiting? && |threads[t].held| < |threads[t].ids| &&
            Less(id, threads[t].ids[|threads[t].held|])
  }

  /** The owner of the mutex a thread waits for holds the awaited ID. */
  lemma OwnerHoldsIt(s: State, t: nat)
    requires Inv(s) && t < |s.threads| && s.threads[t].pc.Waiting? && s.threads[t].pc.rc in s.mutex
    ensures var o := s.mutex[s.threads[t].pc.rc];
            o < |s.threads| &&
            (s.threads[o].pc == Unlocking(s.threads[t].pc.rc) ||
             Inside(s.threads[o], s.threads[t].ids[|s.threads[t].held|]))
  {
    var rc, id := s.threads[t].pc.rc, s.threads[t].ids[|s.threads[t].held|];
    var o := s.mutex[rc];
    assert Owns(s.threads[o], rc) && ThreadOk(s.table, s.threads[t]) && ThreadOk(s.table, s.threads[o]);
    if s.threads[o].pc != Unlocking(rc) {
      var i :| 0 <= i < |s.threads[o].held| && s.threads[o].held[i] == rc;
      assert s.table.rcs[rc].id == id && s.table.rcs[rc].id == s.threads[o].ids[i];
    }
  }

  /** A thread that is not blocked and not finished can move. */
  lemma StepOf(s: State, t: nat) returns (step: Step)
    requires Inv(s) && t < |s.threads| && !Finished(s.threads[t]) && !s.threads[t].pc.Waiting?
    ensures Enabled(s, step)
  {
    var th := s.threads[t];
    assert ThreadOk(s.table, th);
    match th.pc
    case Acquiring => step := if |th.held| < |th.ids| then Make(t) else Finish(t);
    case Releasing => step := Release(t);
    case Unlocking(_) => step := Unlock(t);
  }

  /** Follow the owners: each waits for a larger ID than the last, so the chain ends at a thread that can move. */
  lemma {:induction false} FindStep(s: State, t: nat) returns (step: Step)
    requires Inv(s) && t < |s.threads| && !Finished(s.threads[t])
    ensures Enabled(s, step)
    decreases if s.threads[t].pc.Waiting? && |s.threads[t].held| < |s.threads[t].ids|
              then |BlockedAbove(s.threads, s.threads[t].ids[|s.threads[t].held|])| else |s.threads| + 1
  {
    var th := s.threads[t];
    assert ThreadOk(s.table, th);
    if !th.pc.Waiting? {
      step := StepOf(s, t);
    } else if th.pc.rc !in s.mutex {
      step := Lock(t);
    } else {
      OwnerHoldsIt(s, t);
      var o, id := s.mutex[th.pc.rc], th.ids[|th.held|];
      var owner := s.threads[o];
      assert ThreadOk(s.table, owner);
      if owner.pc.Waiting? {
        var i :| 0 <= i < |owner.held| && owner.ids[i] == id;
        ChainShrinks(s.threads, o, id, owner.ids[|owner.held|]);
        step := FindStep(s, o);
      } else {
        step := StepOf(s, o);
      }
    }
  }

  lemma ChainShrinks(threads: seq<Thread>, o: nat, id: Id, id': Id)
    requires o < |threads| && threads[o].pc.Waiting? && |threads[o].held| < |threads[o].ids|
    requires id' == threads[o].ids[|threads[o].held|] && Less(id, id')
    ensures |BlockedAbove(threads, id')| < |BlockedAbove(threads, id)|
  {
    var a, b := BlockedAbove(threads, id'), BlockedAbove(threads, id);
    forall t | t in a
      ensures t in b
    {
      Transitive(id, id', threads[t].ids[|threads[t].held|]);
    }
    Irreflexive(id');
    assert o in b && o !in a;
    Subset(a, b, o);
  }

  lemma Subset(a: set<nat>, b: set<nat>, o: nat)
    requires a <= b && o in b && o !in a
    ensures |a| < |b|
  {
    SubsetCard(a, b - {o});
  }

  lemma {:induction false} SubsetCard(a: set<nat>, b: set<nat>)
    requires a <= b
    ensures |a| <= |b|
  {
    if a != {} {
      var x :| x in a;
      SubsetCard(a - {x}, b - {x});
    }
  }

  lemma NoDeadlock(run: seq<State>, steps: seq<Step>, i: nat, t: nat)
    requires IsRun(run, steps) && i < |run| && t < |run[i].threads| && !Finished(run[i].threads[t])
    ensures exists step :: Enabled(run[i], step)
  {
    Reachable(run, steps, i);
    var step := FindStep(run[i], t);
  }

  // ---- every run ends ----

  /** An upper bound on the steps a thread still takes. */
  function Work(th: Thread): int {
    match th.pc
    case Acquiring => 4 * (|th.ids| - |th.held|) + 2 * |th.held| + 1
    case Waiting(_) => 4 * (|th.ids| - |th.held|) + 2 * |th.held|
    case Releasing => 2 * |th.held|
    case Unlocking(_) => 2 * |th.held| + 1
  }

  function TotalWork(threads: seq<Thread>): int {
    if threads == [] then 0 else Work(threads[0]) + TotalWork(threads[1..])
  }

  lemma {:induction false} TotalWorkChange(threads: seq<Thread>, t: nat, th: Thread)
    requires t < |threads|
    ensures TotalWork(threads[t := th]) == TotalWork(threads) - Work(threads[t]) + Work(th)
  {
    if t == 0 {
      assert threads[0 := th][1..] == threads[1..];
    } else {
      assert threads[t := th][1..] == threads[1..][t - 1 := th];
      TotalWorkChange(threads[1..], t - 1, th);
    }
  }

  lemma {:induction false} TotalWorkNonNegative(threads: seq<Thread>)
    requires forall t :: 0 <= t < |threads| ==> Claimed(threads[t]) <= |threads[t].ids|
    ensures TotalWork(threads) >= 0
  {
    if threads != [] { TotalWorkNonNegative(threads[1..]); }
  }

  lemma StepDoesWork(s: State, step: Step)
    requires Inv(s) && Enabled(s, step)
    ensures TotalWork(Apply(s, step).threads) < TotalWork(s.threads)
  {
    var th := s.threads[step.t];
    assert ThreadOk(s.table, th);
    if step.Release? { LastClaim(s.table, th); }
    TotalWorkChange(s.threads, step.t, Apply(s, step).threads[step.t]);
  }

  /** No run takes more steps than the work it starts with; with NoDeadlock, every thread finishes. */
  lemma {:induction false} RunsEnd(run: seq<State>, steps: seq<Step>, i: nat)
    requires IsRun(run, steps) && i < |run|
    ensures i + TotalWork(run[i].threads) <= TotalWork(run[0].threads)
    ensures TotalWork(run[i].threads) >= 0
  {
    Reachable(run, steps, i);
    assert forall t :: 0 <= t < |run[i].threads| ==> ThreadOk(run[i].table, run[i].threads[t]);
    TotalWorkNonNegative(run[i].threads);
    if i > 0 {
      RunsEnd(run, steps, i - 1);
      Reachable(run, steps, i - 1);
      StepDoesWork(run[i - 1], steps[i - 1]);
    }
  }

  /** When every thread has finished, the lock table is empty again and no mutex stays locked. */
  lemma NothingLeaks(run: seq<State>, steps: seq<Step>, i: nat)
    requires IsRun(run, steps) && i < |run|
    requires forall t :: 0 <= t < |run[i].threads| ==> Finished(run[i].threads[t])
    ensures run[i].table.locks == map[] && run[i].mutex == map[]
  {
    Reachable(run, steps, i);
    forall id
      ensures id !in run[i].table.locks
    {
      assert Users(run[i].threads, id) == {};
      assert CountOk(run[i].table, run[i].threads, id);
    }
    assert run[i].table.locks.Keys == {};
    assert run[i].mutex.Keys == {};
  }
}
