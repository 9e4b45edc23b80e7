/** genesis/genesis.go and genesis/config.go: the split of the staked funds among the initial stakers,
and what FromConfig hands out in all. */
module Genesis {
  import opened Options
  import opened ByteStrings

  const MAX_UINT64 := 0xFFFF_FFFF_FFFF_FFFF
  type u64 = x: int | 0 <= x <= MAX_UINT64

  datatype Locked = Locked(amount: u64, locktime: u64)
  datatype Allocation = Allocation(eth: Bytes, djtx: Bytes, initial: u64, unlocks: seq<Locked>)
  type Group = seq<Allocation>

  // ---- sums ---------------------------------------------------------------------------------

  /** Which amounts to count: those of an owner (its two addresses) with a lock time. */
  type Filter = (Bytes, Bytes, u64) -> bool

  const All: Filter := (_, _, _) => true

  function Part(a: Allocation, u: Locked, p: Filter): nat {
    if p(a.eth, a.djtx, u.locktime) then u.amount else 0
  }

  function UnlockSum(a: Allocation, us: seq<Locked>, p: Filter): nat {
    if us == [] then 0 else UnlockSum(a, us[..|us| - 1], p) + Part(a, us[|us| - 1], p)
  }

  function AllocationSum(a: Allocation, p: Filter): nat {
    UnlockSum(a, a.unlocks, p)
  }

  function Sum(g: Group, p: Filter): nat {
    if g == [] then 0 else Sum(g[..|g| - 1], p) + AllocationSum(g[|g| - 1], p)
  }

  function GroupsSum(gs: seq<Group>, p: Filter): nat {
    if gs == [] then 0 else GroupsSum(gs[..|gs| - 1], p) + Sum(gs[|gs| - 1], p)
  }

  predicate SameOwner(a: Allocation, b: Allocation) {
    a.eth == b.eth && a.djtx == b.djtx
  }

  lemma {:induction false} UnlockSumOwner(a: Allocation, b: Allocation, us: seq<Locked>, p: Filter)
    requires SameOwner(a, b)
    ensures UnlockSum(a, us, p) == UnlockSum(b, us, p)
  {
    if us != [] { UnlockSumOwner(a, b, us[..|us| - 1], p); }
  }

  // ---- the split ----------------------------------------------------------------------------

  /** The groups finished, the group and its amount so far, and the allocation being copied into it. */
  datatype Cut = Cut(groups: seq<Group>, group: Group, amount: nat, current: Allocation)

  function Blank(a: Allocation): Allocation {
    a.(initial := 0, unlocks := [])
  }

  function AddLocked(a: Allocation, u: Locked): Allocation {
    a.(unlocks := a.unlocks + [u])
  }

  /** One unlock split over as many groups as it fills; what is left of it goes to the open group. */
  function Fill(c: Cut, a: Allocation, u: Locked, weight: u64, n: nat): (Cut, Locked)
    decreases n - |c.groups|
  {
    if c.amount + u.amount > weight && |c.groups| + 1 < n && c.amount <= weight then
      var add := weight - c.amount;
      var full := c.group + [AddLocked(c.current, Locked(add, u.locktime))];
      Fill(Cut(c.groups + [full], [], 0, Blank(a)), a, u.(amount := u.amount - add), weight, n)
    else (c, u)
  }

  function AddUnlock(c: Cut, a: Allocation, u: Locked, weight: u64, n: nat): Cut {
    var (c1, u1) := Fill(c, a, u, weight, n);
    if u1.amount == 0 then c1 else c1.(current := AddLocked(c1.current, u1), amount := c1.amount + u1.amount)
  }

  function AddUnlocks(c: Cut, a: Allocation, us: seq<Locked>, weight: u64, n: nat): Cut {
    if us == [] then c else AddUnlock(AddUnlocks(c, a, us[..|us| - 1], weight, n), a, us[|us| - 1], weight, n)
  }

  function AddAllocation(c: Cut, a: Allocation, weight: u64, n: nat): Cut {
    var c1 := AddUnlocks(c.(current := Blank(a)), a, a.unlocks, weight, n);
    if c1.current.unlocks == [] then c1 else c1.(group := c1.group + [c1.current], current := Blank(a))
  }

  function AddAllocations(allocations: seq<Allocation>, weight: u64, n: nat): Cut {
    if allocations == [] then Cut([], [], 0, Allocation([], [], 0, []))
    else AddAllocation(AddAllocations(allocations[..|allocations| - 1], weight, n), allocations[|allocations| - 1], weight, n)
  }

  function Split(allocations: seq<Allocation>, weight: u64, n: nat): seq<Group> {
    var c := AddAllocations(allocations, weight, n);
    c.groups + [c.group]
  }

  // ---- nothing is lost ----------------------------------------------------------------------

  function CutSum(c: Cut, p: Filter): nat {
    GroupsSum(c.groups, p) + Sum(c.group, p) + AllocationSum(c.current, p)
  }

  /** The amount tracked is that of the open group; finished groups have exactly the weight; the open
      one has no more, unless it is the last. */
  ghost predicate CutOk(c: Cut, weight: u64, n: nat) {
    && c.amount == Sum(c.group, All) + AllocationSum(c.current, All)
    && AllFull(c.groups, weight)
    && |c.groups| < n && (|c.groups| + 1 < n ==> c.amount <= weight)
  }

  ghost predicate AllFull(gs: seq<Group>, weight: nat) {
    forall i :: 0 <= i < |gs| ==> Sum(gs[i], All) == weight
  }

  lemma OneMoreFull(gs: seq<Group>, g: Group, weight: nat)
    requires AllFull(gs, weight) && Sum(g, All) == weight
    ensures AllFull(gs + [g], weight)
  {
  }

  lemma CloseGroup(c: Cut, a: Allocation, u: Locked, weight: u64, n: nat)
    requires CutOk(c, weight, n) && c.amount + u.amount > weight && |c.groups| + 1 < n && SameOwner(a, c.current)
    ensures var add := weight - c.amount;
            var full := c.group + [AddLocked(c.current, Locked(add, u.locktime))];
            CutOk(Cut(c.groups + [full], [], 0, Blank(a)), weight, n)
  {
    var add := weight - c.amount;
    CloseSum(c, a, u, add, All);
    OneMoreFull(c.groups, c.group + [AddLocked(c.current, Locked(add, u.locktime))], weight);
  }

  /** Closing a group moves `add` from the unlock into it. */
  lemma CloseSum(c: Cut, a: Allocation, u: Locked, add: u64, p: Filter)
    requires SameOwner(a, c.current)
    ensures var full := c.group + [AddLocked(c.current, Locked(add, u.locktime))];
            && Sum(full, p) == Sum(c.group, p) + AllocationSum(c.current, p) + Part(a, Locked(add, u.locktime), p)
            && CutSum(Cut(c.groups + [full], [], 0, Blank(a)), p) == CutSum(c, p) + Part(a, Locked(add, u.locktime), p)
  {
    var part := Locked(add, u.locktime);
    var filled := AddLocked(c.current, part);
    UnlockSumOwner(filled, c.current, filled.unlocks, p);
  }

  lemma {:induction false} FillKeeps(c: Cut, a: Allocation, u: Locked, weight: u64, n: nat)
    requires CutOk(c, weight, n) && SameOwner(a, c.current)
    ensures var (c', u') := Fill(c, a, u, weight, n);
            && CutOk(c', weight, n) && SameOwner(a, c'.current) && u'.locktime == u.locktime
            && (|c'.groups| + 1 < n ==> c'.amount + u'.amount <= weight)
    decreases n - |c.groups|
  {
    if c.amount + u.amount > weight && |c.groups| + 1 < n {
      var add := weight - c.amount;
      var full := c.group + [AddLocked(c.current, Locked(add, u.locktime))];
      CloseGroup(c, a, u, weight, n);
      FillKeeps(Cut(c.groups + [full], [], 0, Blank(a)), a, u.(amount := u.amount - add), weight, n);
    }
  }

  lemma {:induction false} FillConserves(c: Cut, a: Allocation, u: Locked, weight: u64, n: nat, p: Filter)
    requires SameOwner(a, c.current)
    ensures var (c', u') := Fill(c, a, u, weight, n);
            CutSum(c', p) + Part(a, u', p) == CutSum(c, p) + Part(a, u, p)
    decreases n - |c.groups|
  {
    if c.amount + u.amount > weight && |c.groups| + 1 < n && c.amount <= weight {
      var add := weight - c.amount;
      var full := c.group + [AddLocked(c.current, Locked(add, u.locktime))];
      CloseSum(c, a, u, add, p);
      FillConserves(Cut(c.groups + [full], [], 0, Blank(a)), a, u.(amount := u.amount - add), weight, n, p);
    }
  }

  lemma AddToCurrent(c: Cut, a: Allocation, u: Locked, p: Filter)
    requires SameOwner(a, c.current)
    ensures AllocationSum(AddLocked(c.current, u), p) == AllocationSum(c.current, p) + Part(a, u, p)
  {
    UnlockSumOwner(AddLocked(c.current, u), c.current, c.current.unlocks + [u], p);
  }

  lemma AddUnlockKeeps(c: Cut, a: Allocation, u: Locked, weight: u64, n: nat)
    requires CutOk(c, weight, n) && SameOwner(a, c.current)
    ensures CutOk(AddUnlock(c, a, u, weight, n), weight, n) && SameOwner(a, AddUnlock(c, a, u, weight, n).current)
  {
    FillKeeps(c, a, u, weight, n);
    var (c1, u1) := Fill(c, a, u, weight, n);
    AddToCurrent(c1, a, u1, All);
  }

  lemma AddUnlockConserves(c: Cut, a: Allocation, u: Locked, weight: u64, n: nat, p: Filter)
    requires CutOk(c, weight, n) && SameOwner(a, c.current)
    ensures CutSum(AddUnlock(c, a, u, weight, n), p) == CutSum(c, p) + Part(a, u, p)
  {
    FillKeeps(c, a, u, weight, n);
    FillConserves(c, a, u, weight, n, p);
    var (c1, u1) := Fill(c, a, u, weight, n);
    AddToCurrent(c1, a, u1, p);
  }

  lemma {:induction false} AddUnlocksKeeps(c: Cut, a: Allocation, us: seq<Locked>, weight: u64, n: nat, p: Filter)
    requires CutOk(c, weight, n) && SameOwner(a, c.current)
    ensures var c' := AddUnlocks(c, a, us, weight, n);
            CutOk(c', weight, n) && SameOwner(a, c'.current) && CutSum(c', p) == CutSum(c, p) + UnlockSum(a, us, p)
  {
    if us != [] {
      var init := us[..|us| - 1];
      AddUnlocksKeeps(c, a, init, weight, n, p);
      AddUnlockKeeps(AddUnlocks(c, a, init, weight, n), a, us[|us| - 1], weight, n);
      AddUnlockConserves(AddUnlocks(c, a, init, weight, n), a, us[|us| - 1], weight, n, p);
    }
  }

  lemma AddAllocationKeeps(c: Cut, a: Allocation, weight: u64, n: nat, p: Filter)
    requires CutOk(c, weight, n) && c.current.unlocks == []
    ensures var c' := AddAllocation(c, a, weight, n);
            CutOk(c', weight, n) && c'.current.unlocks == [] && CutSum(c', p) == CutSum(c, p) + AllocationSum(a, p)
  {
    AddUnlocksKeeps(c.(current := Blank(a)), a, a.unlocks, weight, n, p);
    var c1 := AddUnlocks(c.(current := Blank(a)), a, a.unlocks, weight, n);
  }

  lemma {:induction false} AddAllocationsKeeps(allocations: seq<Allocation>, weight: u64, n: nat, p: Filter)
    requires n >= 1
    ensures var c := AddAllocations(allocations, weight, n);
            CutOk(c, weight, n) && c.current.unlocks == [] && CutSum(c, p) == Sum(allocations, p)
  {
    if allocations != [] {
      var init := allocations[..|allocations| - 1];
      AddAllocationsKeeps(init, weight, n, p);
      AddAllocationKeeps(AddAllocations(init, weight, n), allocations[|allocations| - 1], weight, n, p);
    }
  }

  /** For every owner and lock time, and in all: the groups hold what the allocations held. */
  lemma SplitConserves(allocations: seq<Allocation>, weight: u64, n: nat, p: Filter)
    requires n >= 1
    ensures GroupsSum(Split(allocations, weight, n), p) == Sum(allocations, p)
  {
    AddAllocationsKeeps(allocations, weight, n, p);
    var c := AddAllocations(allocations, weight, n);
  }

  // ---- and nothing changes its order --------------------------------------------------------

  /** The owner and lock time of one token. */
  type Token = (Bytes, Bytes, u64)

  function Tokens(a: Allocation, u: Locked): seq<Token> {
    seq(u.amount, _ => (a.eth, a.djtx, u.locktime))
  }

  /** The tokens of an allocation, of a group and of groups, one by one in order. */
  function UnlockTokens(a: Allocation, us: seq<Locked>): seq<Token> {
    if us == [] then [] else UnlockTokens(a, us[..|us| - 1]) + Tokens(a, us[|us| - 1])
  }

  function GroupTokens(g: Group): seq<Token> {
    if g == [] then [] else GroupTokens(g[..|g| - 1]) + UnlockTokens(g[|g| - 1], g[|g| - 1].unlocks)
  }

  function AllTokens(gs: seq<Group>): seq<Token> {
    if gs == [] then [] else AllTokens(gs[..|gs| - 1]) + GroupTokens(gs[|gs| - 1])
  }

  function CutTokens(c: Cut): seq<Token> {
    AllTokens(c.groups) + GroupTokens(c.group) + UnlockTokens(c.current, c.current.unlocks)
  }

  lemma {:induction false} UnlockTokensOwner(a: Allocation, b: Allocation, us: seq<Locked>)
    requires SameOwner(a, b)
    ensures UnlockTokens(a, us) == UnlockTokens(b, us)
  {
    if us != [] { UnlockTokensOwner(a, b, us[..|us| - 1]); }
  }

  lemma LastTokens(a: Allocation, b: Allocation, u: Locked)
    requires SameOwner(a, b)
    ensures UnlockTokens(AddLocked(b, u), AddLocked(b, u).unlocks) == UnlockTokens(b, b.unlocks) + Tokens(a, u)
  {
    var b' := AddLocked(b, u);
    assert b'.unlocks[..|b.unlocks|] == b.unlocks;
    UnlockTokensOwner(b', b, b.unlocks);
  }

  /** Closing a group appends the part of the unlock that it takes. */
  lemma CloseTokens(c: Cut, a: Allocation, u: Locked, add: u64)
    requires SameOwner(a, c.current)
    ensures var full := c.group + [AddLocked(c.current, Locked(add, u.locktime))];
            CutTokens(Cut(c.groups + [full], [], 0, Blank(a))) == CutTokens(c) + Tokens(a, Locked(add, u.locktime))
  {
    var part := Locked(add, u.locktime);
    var filled := AddLocked(c.current, part);
    LastTokens(a, c.current, part);
    OneMoreGroup(c.groups, c.group, filled);
    Regroup(AllTokens(c.groups), GroupTokens(c.group), UnlockTokens(c.current, c.current.unlocks), Tokens(a, part));
  }

  lemma OneMoreGroup(gs: seq<Group>, g: Group, a: Allocation)
    ensures GroupTokens(g + [a]) == GroupTokens(g) + UnlockTokens(a, a.unlocks)
    ensures AllTokens(gs + [g + [a]]) == AllTokens(gs) + (GroupTokens(g) + UnlockTokens(a, a.unlocks))
  {
    assert (g + [a])[..|g|] == g && (gs + [g + [a]])[..|gs|] == gs;
  }

  lemma Regroup<T>(x: seq<T>, y: seq<T>, z: seq<T>, t: seq<T>)
    ensures x + (y + (z + t)) == x + y + z + t
  {
  }

  lemma TokensParts(a: Allocation, u: Locked, add: u64)
    requires add <= u.amount
    ensures Tokens(a, u) == Tokens(a, Locked(add, u.locktime)) + Tokens(a, u.(amount := u.amount - add))
  {
  }

  lemma {:induction false} FillTokens(c: Cut, a: Allocation, u: Locked, weight: u64, n: nat)
    requires SameOwner(a, c.current)
    ensures var (c', u') := Fill(c, a, u, weight, n);
            CutTokens(c') + Tokens(a, u') == CutTokens(c) + Tokens(a, u) && SameOwner(a, c'.current)
    decreases n - |c.groups|
  {
    if c.amount + u.amount > weight && |c.groups| + 1 < n && c.amount <= weight {
      var add := weight - c.amount;
      var full := c.group + [AddLocked(c.current, Locked(add, u.locktime))];
      var c1, u1 := Cut(c.groups + [full], [], 0, Blank(a)), u.(amount := u.amount - add);
      CloseTokens(c, a, u, add);
      TokensParts(a, u, add);
      FillTokens(c1, a, u1, weight, n);
      assert CutTokens(c) + (Tokens(a, Locked(add, u.locktime)) + Tokens(a, u1)) ==
             CutTokens(c) + Tokens(a, Locked(add, u.locktime)) + Tokens(a, u1);
    }
  }

  lemma AddUnlockTokens(c: Cut, a: Allocation, u: Locked, weight: u64, n: nat)
    requires SameOwner(a, c.current)
    ensures var c' := AddUnlock(c, a, u, weight, n); CutTokens(c') == CutTokens(c) + Tokens(a, u) && SameOwner(a, c'.current)
  {
    FillTokens(c, a, u, weight, n);
    var (c1, u1) := Fill(c, a, u, weight, n);
    LastTokens(a, c1.current, u1);
    var x, z := AllTokens(c1.groups) + GroupTokens(c1.group), UnlockTokens(c1.current, c1.current.unlocks);
    assert x + (z + Tokens(a, u1)) == x + z + Tokens(a, u1);
  }

  lemma {:induction false} AddUnlocksTokens(c: Cut, a: Allocation, us: seq<Locked>, weight: u64, n: nat)
    requires SameOwner(a, c.current)
    ensures var c' := AddUnlocks(c, a, us, weight, n);
            CutTokens(c') == CutTokens(c) + UnlockTokens(a, us) && SameOwner(a, c'.current)
  {
    if us != [] {
      var init, u := us[..|us| - 1], us[|us| - 1];
      AddUnlocksTokens(c, a, init, weight, n);
      AddUnlockTokens(AddUnlocks(c, a, init, weight, n), a, u, weight, n);
      assert CutTokens(c) + (UnlockTokens(a, init) + Tokens(a, u)) == CutTokens(c) + UnlockTokens(a, init) + Tokens(a, u);
    }
  }

  lemma {:induction false} AddAllocationsTokens(allocations: seq<Allocation>, weight: u64, n: nat)
    ensures var c := AddAllocations(allocations, weight, n);
            CutTokens(c) == GroupTokens(allocations) && c.current.unlocks == []
  {
    if allocations != [] {
      var init, a := allocations[..|allocations| - 1], allocations[|allocations| - 1];
      AddAllocationsTokens(init, weight, n);
      var c := AddAllocations(init, weight, n);
      AddUnlocksTokens(c.(current := Blank(a)), a, a.unlocks, weight, n);
      var c1 := AddUnlocks(c.(current := Blank(a)), a, a.unlocks, weight, n);
      assert (c1.group + [c1.current])[..|c1.group|] == c1.group;
      var x, y, z := AllTokens(c1.groups), GroupTokens(c1.group), UnlockTokens(c1.current, c1.current.unlocks);
      assert x + (y + z) + [] == x + y + z;
    }
  }

  lemma {:induction false} TokensCount(a: Allocation, us: seq<Locked>)
    ensures |UnlockTokens(a, us)| == UnlockSum(a, us, All)
  {
    if us != [] { TokensCount(a, us[..|us| - 1]); }
  }

  lemma {:induction false} GroupTokensCount(g: Group)
    ensures |GroupTokens(g)| == Sum(g, All)
  {
    if g != [] {
      GroupTokensCount(g[..|g| - 1]);
      TokensCount(g[|g| - 1], g[|g| - 1].unlocks);
    }
  }

  /** In equal groups laid end to end, group i is the i-th stretch. */
  lemma {:induction false} Stretch(gs: seq<Group>, w: nat, i: nat, at: int)
    requires i < |gs| && at == i * w && forall j :: 0 <= j < |gs| - 1 ==> Sum(gs[j], All) == w
    ensures 0 <= at <= |AllTokens(gs)| && GroupTokens(gs[i]) <= AllTokens(gs)[at..]
    ensures i == |gs| - 1 ==> GroupTokens(gs[i]) == AllTokens(gs)[at..]
  {
    var n := |gs| - 1;
    if i < n {
      Stretch(gs[..n], w, i, at);
      assert gs[..n][i] == gs[i];
      From(AllTokens(gs[..n]), GroupTokens(gs[n]), GroupTokens(gs[i]), at);
    } else {
      Ends(gs, w);
    }
  }

  lemma From<T>(x: seq<T>, y: seq<T>, z: seq<T>, k: nat)
    requires k <= |x| && z <= x[k..]
    ensures z <= (x + y)[k..]
  {
    assert (x + y)[k..] == x[k..] + y;
  }

  lemma {:induction false} Ends(gs: seq<Group>, w: nat)
    requires gs != [] && forall j :: 0 <= j < |gs| - 1 ==> Sum(gs[j], All) == w
    ensures |AllTokens(gs[..|gs| - 1])| == (|gs| - 1) * w && (|gs| - 1) * w >= 0
    ensures AllTokens(gs)[(|gs| - 1) * w..] == GroupTokens(gs[|gs| - 1])
  {
    var n := |gs| - 1;
    if n > 0 {
      Ends(gs[..n], w);
      GroupTokensCount(gs[n - 1]);
      SplitProduct(n - 1, 1, w);
    }
  }

  lemma SplitTokens(allocations: seq<Allocation>, weight: u64, n: nat)
    ensures AllTokens(Split(allocations, weight, n)) == GroupTokens(allocations)
  {
    AddAllocationsTokens(allocations, weight, n);
    var c := AddAllocations(allocations, weight, n);
    assert (c.groups + [c.group])[..|c.groups|] == c.groups;
  }

  /** The groups laid end to end are the allocations, token by token in order of the list: staker i has the i-th
      stretch of `weight` tokens, and the last one the rest. */
  lemma SplitInOrder(allocations: seq<Allocation>, weight: u64, n: nat, i: nat)
    requires n >= 1 && i < |Split(allocations, weight, n)|
    ensures var gs, all := Split(allocations, weight, n), GroupTokens(allocations);
            && AllTokens(gs) == all && 0 <= i * weight <= |all|
            && (if i < |gs| - 1 then i * weight + weight <= |all| && GroupTokens(gs[i]) == all[i * weight..i * weight + weight]
                else GroupTokens(gs[i]) == all[i * weight..])
  {
    var gs := Split(allocations, weight, n);
    SplitTokens(allocations, weight, n);
    SplitShape(allocations, weight, n);
    Stretch(gs, weight, i, i * weight);
    GroupTokensCount(gs[i]);
  }

  // ---- and no initial amount is handed out twice --------------------------------------------

  /** Initial amounts go to the X-chain alone. */
  predicate NoInitial(g: Group) {
    forall i :: 0 <= i < |g| ==> g[i].initial == 0
  }

  ghost predicate CutNoInitial(c: Cut) {
    (forall i :: 0 <= i < |c.groups| ==> NoInitial(c.groups[i])) && NoInitial(c.group) && c.current.initial == 0
  }

  lemma {:induction false} FillNoInitial(c: Cut, a: Allocation, u: Locked, weight: u64, n: nat)
    requires CutNoInitial(c)
    ensures CutNoInitial(Fill(c, a, u, weight, n).0)
    decreases n - |c.groups|
  {
    if c.amount + u.amount > weight && |c.groups| + 1 < n && c.amount <= weight {
      var add := weight - c.amount;
      var full := c.group + [AddLocked(c.current, Locked(add, u.locktime))];
      assert NoInitial(full);
      FillNoInitial(Cut(c.groups + [full], [], 0, Blank(a)), a, u.(amount := u.amount - add), weight, n);
    }
  }

  lemma {:induction false} AddUnlocksNoInitial(c: Cut, a: Allocation, us: seq<Locked>, weight: u64, n: nat)
    requires CutNoInitial(c)
    ensures CutNoInitial(AddUnlocks(c, a, us, weight, n))
  {
    if us != [] {
      AddUnlocksNoInitial(c, a, us[..|us| - 1], weight, n);
      FillNoInitial(AddUnlocks(c, a, us[..|us| - 1], weight, n), a, us[|us| - 1], weight, n);
    }
  }

  lemma {:induction false} SplitNoInitial(allocations: seq<Allocation>, weight: u64, n: nat)
    ensures CutNoInitial(AddAllocations(allocations, weight, n))
    ensures forall i :: 0 <= i < |Split(allocations, weight, n)| ==> NoInitial(Split(allocations, weight, n)[i])
  {
    if allocations != [] {
      var init, a := allocations[..|allocations| - 1], allocations[|allocations| - 1];
      SplitNoInitial(init, weight, n);
      AddUnlocksNoInitial(AddAllocations(init, weight, n).(current := Blank(a)), a, a.unlocks, weight, n);
    }
  }

  lemma {:induction false} EqualGroups(gs: seq<Group>, weight: nat)
    requires AllFull(gs, weight)
    ensures GroupsSum(gs, All) == |gs| * weight
  {
    if gs != [] {
      EqualGroups(gs[..|gs| - 1], weight);
    }
  }

  /** nodeWeight */
  function Share(total: u64, n: nat): (w: u64)
    requires n >= 1
    ensures w == total / n && n * w <= total < n * (w + 1) && w <= total
  {
    ShareBounds(total, n);
    total / n
  }

  lemma ShareBounds(total: nat, n: nat)
    requires n >= 1
    ensures n * (total / n) <= total < n * (total / n + 1) && 0 <= total / n <= total
  {
    var q := total / n;
    assert total == n * q + total % n;
    assert n * (q + 1) == n * q + n;
    if q > 0 {
      SplitProduct(1, n - 1, q);
      assert n * q == q + (n - 1) * q;
      assert (n - 1) * q >= 0;
    }
  }

  lemma SplitProduct(k: int, m: int, w: int)
    ensures (k + m) * w == k * w + m * w
  {
  }

  /** Fewer than n groups can only be when there is nothing to split. */
  lemma EnoughGroups(total: nat, n: nat, w: nat, k: nat, amount: nat)
    requires k + 1 < n && n * w <= total && total == k * w + amount && amount <= w
    ensures total == 0
  {
    SplitProduct(k, n - k, w);
    SplitProduct(n - k - 1, 1, w);
  }

  lemma {:induction false} NoUnlocks(c: Cut, a: Allocation, us: seq<Locked>, n: nat)
    requires UnlockSum(a, us, All) == 0 && c.amount == 0
    ensures AddUnlocks(c, a, us, 0, n) == c
  {
    if us != [] { NoUnlocks(c, a, us[..|us| - 1], n); }
  }

  lemma {:induction false} NothingToSplit(allocations: seq<Allocation>, n: nat)
    requires Sum(allocations, All) == 0
    ensures AddAllocations(allocations, 0, n).groups == [] && AddAllocations(allocations, 0, n).amount == 0
  {
    if allocations != [] {
      var init, a := allocations[..|allocations| - 1], allocations[|allocations| - 1];
      NothingToSplit(init, n);
      NoUnlocks(AddAllocations(init, 0, n).(current := Blank(a)), a, a.unlocks, n);
    }
  }

  /** The shape of the split for any weight. */
  lemma SplitShape(allocations: seq<Allocation>, weight: u64, n: nat)
    requires n >= 1
    ensures var gs := Split(allocations, weight, n);
            && 1 <= |gs| <= n
            && (forall i :: 0 <= i < |gs| - 1 ==> Sum(gs[i], All) == weight)
            && Sum(allocations, All) == (|gs| - 1) * weight + Sum(gs[|gs| - 1], All)
            && (|gs| < n ==> Sum(gs[|gs| - 1], All) <= weight)
  {
    var c := AddAllocations(allocations, weight, n);
    AddAllocationsKeeps(allocations, weight, n, All);
    EqualGroups(c.groups, weight);
  }

  /** Every group but the last has w, and the last has the rest. */
  ghost predicate Shares(gs: seq<Group>, total: nat, w: nat, n: nat) {
    && 1 <= |gs| <= n && (|gs| == n <==> total > 0 || n == 1)
    && (forall i :: 0 <= i < |gs| - 1 ==> Sum(gs[i], All) == w)
    && Sum(gs[|gs| - 1], All) == total - (|gs| - 1) * w
  }

  lemma SplitShares(allocations: seq<Allocation>, w: u64, n: nat)
    requires n >= 1 && n * w <= Sum(allocations, All) && (Sum(allocations, All) == 0 ==> w == 0)
    ensures Shares(Split(allocations, w, n), Sum(allocations, All), w, n)
  {
    SplitShape(allocations, w, n);
    var total, gs := Sum(allocations, All), Split(allocations, w, n);
    if |gs| < n { EnoughGroups(total, n, w, |gs| - 1, Sum(gs[|gs| - 1], All)); }
    if total == 0 { NothingToSplit(allocations, n); }
  }

  /** The exact shares: as many groups as stakers exactly when something is staked or there is one
      staker; each but the last has total/n, the last has the rest. */
  lemma SplitIsExact(allocations: seq<Allocation>, n: nat)
    requires n >= 1 && Sum(allocations, All) <= MAX_UINT64
    ensures var total := Sum(allocations, All);
            Shares(Split(allocations, Share(total, n), n), total, total / n, n)
  {
    SplitShares(allocations, Share(Sum(allocations, All), n), n);
  }

  // ---- in place -----------------------------------------------------------------------------

  lemma {:induction false} UnlockSumPrefix(a: Allocation, us: seq<Locked>, i: nat, p: Filter)
    requires i <= |us|
    ensures UnlockSum(a, us[..i], p) <= UnlockSum(a, us, p)
    ensures i < |us| ==> UnlockSum(a, us[..i + 1], p) == UnlockSum(a, us[..i], p) + Part(a, us[i], p)
  {
    if i < |us| {
      assert us[..i + 1] == us[..i] + [us[i]];
      if i + 1 < |us| {
        UnlockSumPrefix(a, us[..|us| - 1], i, p);
        assert us[..|us| - 1][..i] == us[..i];
      } else {
        assert us[..i + 1] == us;
      }
    } else {
      assert us[..i] == us;
    }
  }

  lemma {:induction false} SumPrefix(g: Group, i: nat, p: Filter)
    requires i <= |g|
    ensures Sum(g[..i], p) <= Sum(g, p)
    ensures i < |g| ==> Sum(g[..i + 1], p) == Sum(g[..i], p) + AllocationSum(g[i], p)
  {
    if i < |g| {
      assert g[..i + 1] == g[..i] + [g[i]];
      if i + 1 < |g| {
        SumPrefix(g[..|g| - 1], i, p);
        assert g[..|g| - 1][..i] == g[..i];
      } else {
        assert g[..i + 1] == g;
      }
    } else {
      assert g[..i] == g;
    }
  }

  /** How much of the total the first i allocations and j unlocks of the next one make. */
  lemma PartialSum(g: Group, i: nat, j: nat)
    requires i < |g| && j < |g[i].unlocks|
    ensures Sum(g[..i], All) + UnlockSum(g[i], g[i].unlocks[..j], All) + g[i].unlocks[j].amount <= Sum(g, All)
  {
    SumPrefix(g, i, All);
    SumPrefix(g, i + 1, All);
    UnlockSumPrefix(g[i], g[i].unlocks, j, All);
    UnlockSumPrefix(g[i], g[i].unlocks, j + 1, All);
  }

  method Total(allocations: seq<Allocation>) returns (total: u64)
    requires Sum(allocations, All) <= MAX_UINT64
    ensures total == Sum(allocations, All)
  {
    total := 0;
    for i := 0 to |allocations|
      invariant total == Sum(allocations[..i], All)
    {
      var us := allocations[i].unlocks;
      for j := 0 to |us|
        invariant total == Sum(allocations[..i], All) + UnlockSum(allocations[i], us[..j], All)
      {
        PartialSum(allocations, i, j);
        UnlockSumPrefix(allocations[i], us, j, All);
        total := total + us[j].amount;
      }
      assert us[..|us|] == us;
      SumPrefix(allocations, i, All);
    }
    assert allocations[..|allocations|] == allocations;
  }

  /** One turn of the innermost loop: the group takes what it still needs and is closed. */
  method CloseOne(c0: Cut, a: Allocation, u0: Locked, weight: u64, n: nat) returns (c: Cut, u: Locked)
    requires CutOk(c0, weight, n) && SameOwner(a, c0.current)
    requires c0.amount + u0.amount > weight && |c0.groups| < n - 1
    ensures Fill(c, a, u, weight, n) == Fill(c0, a, u0, weight, n)
    ensures CutOk(c, weight, n) && SameOwner(a, c.current) && |c.groups| == |c0.groups| + 1
    ensures c.amount == 0 && u.amount <= u0.amount
  {
    CloseGroup(c0, a, u0, weight, n);
    var amountToAdd: u64 := weight - c0.amount;
    var current := AddLocked(c0.current, Locked(amountToAdd, u0.locktime));
    u := u0.(amount := u0.amount - amountToAdd);
    c := Cut(c0.groups + [c0.group + [current]], [], 0, Blank(a));
  }

  lemma AmountInSum(c: Cut, weight: u64, n: nat)
    requires CutOk(c, weight, n)
    ensures c.amount <= CutSum(c, All)
  {
  }

  /** The innermost loop: close groups while the unlock overflows them. */
  method FillGroups(c0: Cut, a: Allocation, u0: Locked, weight: u64, n: nat) returns (c: Cut, u: Locked)
    requires CutOk(c0, weight, n) && SameOwner(a, c0.current) && CutSum(c0, All) + u0.amount <= MAX_UINT64
    ensures (c, u) == Fill(c0, a, u0, weight, n)
    ensures c.amount + u.amount <= MAX_UINT64
  {
    AmountInSum(c0, weight, n);
    c, u := c0, u0;
    var sum: u64 := c.amount + u.amount;
    while sum > weight && |c.groups| < n - 1
      invariant CutOk(c, weight, n) && SameOwner(a, c.current) && sum == c.amount + u.amount
      invariant Fill(c, a, u, weight, n) == Fill(c0, a, u0, weight, n)
      decreases n - |c.groups|
    {
      c, u := CloseOne(c, a, u, weight, n);
      sum := c.amount + u.amount;
    }
  }

  /** One unlock: the groups it fills, then what is left of it. */
  method AddOne(c0: Cut, a: Allocation, u0: Locked, weight: u64, n: nat) returns (c: Cut)
    requires CutOk(c0, weight, n) && SameOwner(a, c0.current) && CutSum(c0, All) + u0.amount <= MAX_UINT64
    ensures c == AddUnlock(c0, a, u0, weight, n)
  {
    var u;
    c, u := FillGroups(c0, a, u0, weight, n);
    if u.amount == 0 {
      return;
    }
    var amount: u64 := c.amount + u.amount;
    c := c.(current := AddLocked(c.current, u), amount := amount);
  }

  lemma AddUnlocksOn(c: Cut, a: Allocation, us: seq<Locked>, i: nat, weight: u64, n: nat)
    requires i < |us|
    ensures AddUnlocks(c, a, us[..i + 1], weight, n) == AddUnlock(AddUnlocks(c, a, us[..i], weight, n), a, us[i], weight, n)
  {
    assert us[..i + 1][..i] == us[..i];
  }

  lemma RoomForUnlock(c: Cut, a: Allocation, us: seq<Locked>, i: nat, weight: u64, n: nat)
    requires CutOk(c, weight, n) && SameOwner(a, c.current) && i < |us|
    ensures var c1 := AddUnlocks(c, a, us[..i], weight, n);
            CutOk(c1, weight, n) && SameOwner(a, c1.current) &&
            CutSum(c1, All) + us[i].amount <= CutSum(c, All) + UnlockSum(a, us, All)
  {
    AddUnlocksKeeps(c, a, us[..i], weight, n, All);
    UnlockSumPrefix(a, us, i, All);
    UnlockSumPrefix(a, us, i + 1, All);
  }

  /** The loop over the unlocks of one allocation. */
  method AddEach(c0: Cut, a: Allocation, weight: u64, n: nat) returns (c: Cut)
    requires CutOk(c0, weight, n) && c0.current == Blank(a) && CutSum(c0, All) + AllocationSum(a, All) <= MAX_UINT64
    ensures c == AddUnlocks(c0, a, a.unlocks, weight, n)
  {
    c := c0;
    var us := a.unlocks;
    for i := 0 to |us|
      invariant c == AddUnlocks(c0, a, us[..i], weight, n)
    {
      RoomForUnlock(c0, a, us, i, weight, n);
      AddUnlocksOn(c0, a, us, i, weight, n);
      c := AddOne(c, a, us[i], weight, n);
    }
    assert us[..|us|] == us;
  }

  method SplitAllocations(allocations: seq<Allocation>, n: nat) returns (gs: seq<Group>)
    requires n >= 1 && Sum(allocations, All) <= MAX_UINT64
    ensures gs == Split(allocations, Share(Sum(allocations, All), n), n)
  {
    var total := Total(allocations);
    var weight := Share(total, n);
    var c := Cut([], [], 0, Allocation([], [], 0, []));
    for i := 0 to |allocations|
      invariant c == AddAllocations(allocations[..i], weight, n)
    {
      var a := allocations[i];
      AddAllocationsKeeps(allocations[..i], weight, n, All);
      SumPrefix(allocations, i, All);
      SumPrefix(allocations, i + 1, All);
      assert allocations[..i + 1][..i] == allocations[..i];
      StartAllocation(c, a, weight, n);
      c := AddEach(c.(current := Blank(a)), a, weight, n);
      if |c.current.unlocks| > 0 {
        c := c.(group := c.group + [c.current], current := Blank(a));
      }
    }
    assert allocations[..|allocations|] == allocations;
    gs := c.groups + [c.group];
  }

  lemma StartAllocation(c: Cut, a: Allocation, weight: u64, n: nat)
    requires CutOk(c, weight, n) && c.current.unlocks == []
    ensures CutOk(c.(current := Blank(a)), weight, n) && CutSum(c.(current := Blank(a)), All) == CutSum(c, All)
  {
  }

  // ---- the total handed out -----------------------------------------------------------------

  function InitialSum(g: Group): nat {
    if g == [] then 0 else InitialSum(g[..|g| - 1]) + g[|g| - 1].initial
  }

  function Supply(allocations: seq<Allocation>): nat {
    InitialSum(allocations) + Sum(allocations, All)
  }

  lemma {:induction false} InitialSumPrefix(g: Group, i: nat)
    requires i <= |g|
    ensures InitialSum(g[..i]) <= InitialSum(g)
    ensures i < |g| ==> InitialSum(g[..i + 1]) == InitialSum(g[..i]) + g[i].initial
  {
    if i < |g| {
      assert g[..i + 1][..i] == g[..i];
      if i + 1 < |g| {
        InitialSumPrefix(g[..|g| - 1], i);
        assert g[..|g| - 1][..i] == g[..i];
      } else {
        assert g[..i + 1] == g;
      }
    } else {
      assert g[..i] == g;
    }
  }

  /** Add64: None is an overflow. */
  function Add64(a: u64, b: u64): Option<u64> {
    if a > MAX_UINT64 - b then None else Some(a + b)
  }

  /** One allocation's share of the supply, added with overflow checks. */
  method AddChecked(supply: u64, a: Allocation) returns (r: Option<u64>)
    ensures var sum := supply + a.initial + AllocationSum(a, All);
            r == if sum <= MAX_UINT64 then Some(sum) else None
  {
    var sum := Add64(supply, a.initial);
    var us := a.unlocks;
    UnlockSumPrefix(a, us, 0, All);
    if sum.None? {
      return None;
    }
    var total: u64 := sum.value;
    for j := 0 to |us|
      invariant total == supply + a.initial + UnlockSum(a, us[..j], All)
    {
      UnlockSumPrefix(a, us, j, All);
      UnlockSumPrefix(a, us, j + 1, All);
      sum := Add64(total, us[j].amount);
      if sum.None? {
        return None;
      }
      total := sum.value;
    }
    assert us[..|us|] == us;
    return Some(total);
  }

  /** An overflow is reported exactly when the true supply does not fit. */
  method InitialSupply(allocations: seq<Allocation>) returns (r: Option<u64>)
    ensures r == if Supply(allocations) <= MAX_UINT64 then Some(Supply(allocations)) else None
  {
    var supply: u64 := 0;
    for i := 0 to |allocations|
      invariant supply == Supply(allocations[..i])
    {
      SumPrefix(allocations, i, All);
      SumPrefix(allocations, i + 1, All);
      InitialSumPrefix(allocations, i);
      InitialSumPrefix(allocations, i + 1);
      var next := AddChecked(supply, allocations[i]);
      if next.None? {
        return None;
      }
      supply := next.value;
    }
    assert allocations[..|allocations|] == allocations;
    return Some(supply);
  }

  function WithInitial(allocations: seq<Allocation>): seq<Allocation> {
    if allocations == [] then []
    else
      var a := allocations[|allocations| - 1];
      WithInitial(allocations[..|allocations| - 1]) + if a.initial > 0 then [a] else []
  }

  function Chosen(allocations: seq<Allocation>, staked: set<Bytes>, want: bool): seq<Allocation> {
    if allocations == [] then []
    else
      var a := allocations[|allocations| - 1];
      Chosen(allocations[..|allocations| - 1], staked, want) + if (a.djtx in staked) == want then [a] else []
  }

  lemma CountLast(g: Group, x: Allocation, a: Allocation)
    ensures multiset(g + [x])[a] == multiset(g)[a] + if x == a then 1 else 0
  {
  }

  /** The allocations whose address stakes, or does not, each as often as it is listed. */
  lemma {:induction false} ChosenAre(allocations: seq<Allocation>, staked: set<Bytes>, want: bool, a: Allocation)
    ensures multiset(Chosen(allocations, staked, want))[a] == if a.djtx in staked <==> want then multiset(allocations)[a] else 0
  {
    if allocations != [] {
      var init, x := allocations[..|allocations| - 1], allocations[|allocations| - 1];
      ChosenAre(init, staked, want, a);
      assert allocations == init + [x];
      CountLast(init, x, a);
      var before := Chosen(init, staked, want);
      if (x.djtx in staked) == want { CountLast(before, x, a); } else { assert before + [] == before; }
    }
  }

  lemma {:induction false} WithInitialSum(allocations: seq<Allocation>)
    ensures InitialSum(WithInitial(allocations)) == InitialSum(allocations)
  {
    if allocations != [] {
      var init, a := allocations[..|allocations| - 1], allocations[|allocations| - 1];
      WithInitialSum(init);
      var w := WithInitial(init);
      if a.initial > 0 { assert (w + [a])[..|w|] == w; } else { assert w + [] == w; }
    }
  }

  lemma ChosenLast(allocations: seq<Allocation>, staked: set<Bytes>, want: bool)
    requires allocations != []
    ensures var a := allocations[|allocations| - 1];
            Sum(Chosen(allocations, staked, want), All) ==
              Sum(Chosen(allocations[..|allocations| - 1], staked, want), All) +
              if (a.djtx in staked) == want then AllocationSum(a, All) else 0
  {
    var a, before := allocations[|allocations| - 1], Chosen(allocations[..|allocations| - 1], staked, want);
    if (a.djtx in staked) != want { assert before + [] == before; }
  }

  /** Staked and not staked together are all. */
  lemma {:induction false} ChosenSum(allocations: seq<Allocation>, staked: set<Bytes>)
    ensures Sum(Chosen(allocations, staked, true), All) + Sum(Chosen(allocations, staked, false), All) == Sum(allocations, All)
  {
    if allocations != [] {
      ChosenSum(allocations[..|allocations| - 1], staked);
      ChosenLast(allocations, staked, true);
      ChosenLast(allocations, staked, false);
    }
  }

  lemma RemoveOne<T>(init: seq<T>, x: T, a: seq<T>, b: seq<T>)
    requires multiset(init + [x]) == multiset(a + [x] + b)
    ensures multiset(init) == multiset(a + b)
  {
    assert multiset(init + [x]) == multiset(init) + multiset{x};
    assert multiset(a + [x] + b) == multiset(a + b) + multiset{x};
    assert multiset(init) == multiset(init) + multiset{x} - multiset{x};
    assert multiset(a + b) == multiset(a + b) + multiset{x} - multiset{x};
  }

  lemma {:induction false} PermutedInitialSum(xs: seq<Allocation>, ys: seq<Allocation>)
    requires multiset(xs) == multiset(ys)
    ensures InitialSum(xs) == InitialSum(ys)
    decreases |xs|
  {
    if xs == [] {
      assert |multiset(ys)| == 0;
    } else {
      var init, x := xs[..|xs| - 1], xs[|xs| - 1];
      assert xs == init + [x];
      assert x in multiset(ys);
      var i :| 0 <= i < |ys| && ys[i] == x;
      var a, b := ys[..i], ys[i + 1..];
      assert ys == a + [x] + b;
      RemoveOne(init, x, a, b);
      PermutedInitialSum(init, a + b);
      TakeOut(a, x, b);
    }
  }

  lemma TakeOut(a: Group, x: Allocation, b: Group)
    ensures InitialSum(a + [x] + b) == InitialSum(a + b) + x.initial
  {
    InitialSumJoin(a, b);
    InitialSumJoin(a + [x], b);
    assert (a + [x])[..|a|] == a;
  }

  lemma {:induction false} InitialSumJoin(a: Group, b: Group)
    ensures InitialSum(a + b) == InitialSum(a) + InitialSum(b)
  {
    if b == [] {
      assert a + b == a;
    } else {
      InitialSumJoin(a, b[..|b| - 1]);
      assert (a + b)[..|a + b| - 1] == a + b[..|b| - 1];
    }
  }

  /** The X-chain loop: unsigned addition that wraps around. */
  method AddInitials(xs: seq<Allocation>) returns (amount: u64)
    ensures InitialSum(xs) <= MAX_UINT64 ==> amount == InitialSum(xs)
  {
    amount := 0;
    for i := 0 to |xs|
      invariant InitialSum(xs) <= MAX_UINT64 ==> amount == InitialSum(xs[..i])
    {
      InitialSumPrefix(xs, i);
      InitialSumPrefix(xs, i + 1);
      amount := (amount + xs[i].initial) % (MAX_UINT64 + 1);
    }
    assert xs[..|xs|] == xs;
  }

  /** The UTXO loops over the unlocks of some allocations. */
  method AddUnlockAmounts(amount0: u64, g: Group) returns (amount: u64)
    requires amount0 + Sum(g, All) <= MAX_UINT64
    ensures amount == amount0 + Sum(g, All)
  {
    amount := amount0;
    for i := 0 to |g|
      invariant amount == amount0 + Sum(g[..i], All)
    {
      var us := g[i].unlocks;
      for j := 0 to |us|
        invariant amount == amount0 + Sum(g[..i], All) + UnlockSum(g[i], us[..j], All)
      {
        PartialSum(g, i, j);
        UnlockSumPrefix(g[i], us, j, All);
        if us[j].amount > 0 {
          amount := amount + us[j].amount;
        }
      }
      assert us[..|us|] == us;
      SumPrefix(g, i, All);
    }
    assert g[..|g|] == g;
  }

  lemma {:induction false} GroupsSumPrefix(gs: seq<Group>, i: nat)
    requires i < |gs|
    ensures GroupsSum(gs[..i + 1], All) == GroupsSum(gs[..i], All) + Sum(gs[i], All) <= GroupsSum(gs, All)
  {
    assert gs[..i + 1] == gs[..i] + [gs[i]];
    if i + 1 < |gs| {
      GroupsSumPrefix(gs[..|gs| - 1], i);
      assert gs[..|gs| - 1][..i + 1] == gs[..i + 1] && gs[..|gs| - 1][..i] == gs[..i];
    } else {
      assert gs[..i + 1] == gs;
    }
  }

  method AddGroups(amount0: u64, gs: seq<Group>) returns (amount: u64)
    requires amount0 + GroupsSum(gs, All) <= MAX_UINT64
    ensures amount == amount0 + GroupsSum(gs, All)
  {
    amount := amount0;
    for i := 0 to |gs|
      invariant amount == amount0 + GroupsSum(gs[..i], All)
    {
      GroupsSumPrefix(gs, i);
      amount := AddUnlockAmounts(amount, gs[i]);
    }
    assert gs[..|gs|] == gs;
  }

  lemma SupplyParts(allocations: seq<Allocation>, staked: set<Bytes>, xs: seq<Allocation>)
    requires multiset(xs) == multiset(WithInitial(allocations))
    ensures Supply(allocations) == InitialSum(xs) + Sum(Chosen(allocations, staked, false), All) +
                                   Sum(Chosen(allocations, staked, true), All)
  {
    PermutedInitialSum(xs, WithInitial(allocations));
    WithInitialSum(allocations);
    ChosenSum(allocations, staked);
  }

  /** The stakes are the exact split of what was skipped. */
  ghost predicate Staked(skipped: Group, stakers: nat, stakes: seq<Group>) {
    stakers >= 1 && Sum(skipped, All) <= MAX_UINT64 &&
    stakes == Split(skipped, Share(Sum(skipped, All), stakers), stakers)
  }

  /** The stakes of the validators: one group each. None is a panic: there is no staker to divide by, or
      nothing is staked, so that the split has fewer groups than there are stakers. */
  method Stake(amount0: u64, skipped: Group, stakers: nat) returns (r: Option<(u64, seq<Group>)>)
    requires amount0 + Sum(skipped, All) <= MAX_UINT64
    ensures r.Some? <==> stakers == 1 || (stakers > 1 && Sum(skipped, All) > 0)
    ensures r.Some? ==> r.value.0 == amount0 + Sum(skipped, All) && |r.value.1| == stakers && Staked(skipped, stakers, r.value.1)
  {
    if stakers == 0 {
      return None;
    }
    var stakes := SplitAllocations(skipped, stakers);
    SplitConserves(skipped, Share(Sum(skipped, All), stakers), stakers, All);
    SplitIsExact(skipped, stakers);
    if |stakes| < stakers {
      return None;
    }
    var amount := AddGroups(amount0, stakes);
    return Some((amount, stakes));
  }

  method SortedInitials(allocations: seq<Allocation>, sort: seq<Allocation> -> seq<Allocation>) returns (xs: seq<Allocation>)
    requires forall s :: multiset(sort(s)) == multiset(s)
    ensures multiset(xs) == multiset(WithInitial(allocations))
  {
    xs := sort(WithInitial(allocations));
  }

  /** Every group of an exact split weighs something exactly if there is as much as there are groups. */
  lemma SharesWeigh(gs: seq<Group>, total: u64, n: nat)
    requires n >= 1 && Shares(gs, total, total / n, n) && |gs| == n
    ensures (forall i :: 0 <= i < |gs| ==> Sum(gs[i], All) > 0) <==> total >= n
  {
    var w := Share(total, n);
    SplitProduct(n - 1, 1, w);
    assert n * w == (n - 1) * w + w;
    if total >= n {
      WholeShare(total, n);
    } else {
      assert w == 0 by { NoShare(total, n); }
      assert (n - 1) * w == 0;
      assert Sum(gs[0], All) == 0;
    }
  }

  lemma WholeShare(total: nat, n: nat)
    requires 1 <= n <= total
    ensures total / n >= 1
  {
    assert total == n * (total / n) + total % n;
  }

  lemma NoShare(total: nat, n: nat)
    requires total < n
    ensures total / n == 0
  {
  }

  /** BuildGenesis weighs the stake of every validator, and refuses one that weighs nothing. */
  method AllWeigh(gs: seq<Group>) returns (ok: bool)
    requires GroupsSum(gs, All) <= MAX_UINT64
    ensures ok <==> forall i :: 0 <= i < |gs| ==> Sum(gs[i], All) > 0
  {
    for i := 0 to |gs|
      invariant forall j :: 0 <= j < i ==> Sum(gs[j], All) > 0
    {
      GroupsSumPrefix(gs, i);
      var weight := AddUnlockAmounts(0, gs[i]);
      if weight == 0 {
        return false;
      }
    }
    return true;
  }

  /** How FromConfig ends, as far as the amounts go. */
  datatype Outcome = Overflow | Panics | NoWeight | Handed(amount: u64, stakes: seq<Group>)

  /** The amounts of FromConfig: initial amounts to the X-chain, in sorted order; unlocks of those who
      do not stake to the P-chain; the rest split among the stakers. What is handed out is the
      initial supply, and every staker has a group. It is an error exactly when the supply overflows, it
      panics exactly when there is no staker, or several and nothing staked, and otherwise BuildGenesis refuses
      the validators exactly when less is staked than there are stakers. */
  method HandOut(allocations: seq<Allocation>, staked: set<Bytes>, stakers: nat, sort: seq<Allocation> -> seq<Allocation>)
    returns (r: Outcome)
    requires forall s :: multiset(sort(s)) == multiset(s)
    ensures r.Overflow? <==> Supply(allocations) > MAX_UINT64
    ensures r.Panics? <==> Supply(allocations) <= MAX_UINT64 &&
                           (stakers == 0 || (stakers > 1 && Sum(Chosen(allocations, staked, true), All) == 0))
    ensures r.NoWeight? <==> !r.Overflow? && !r.Panics? && Sum(Chosen(allocations, staked, true), All) < stakers
    ensures r.Handed? ==> r.amount == Supply(allocations) && |r.stakes| == stakers &&
                          Staked(Chosen(allocations, staked, true), stakers, r.stakes)
    ensures r.Handed? ==> var total := Sum(Chosen(allocations, staked, true), All);
                          stakers > 0 && Shares(r.stakes, total, total / stakers, stakers)
    ensures r.Handed? ==> forall i :: 0 <= i < stakers ==> Sum(r.stakes[i], All) > 0
  {
    var xs := SortedInitials(allocations, sort);
    var sum := AddInitials(xs);
    var supply := InitialSupply(allocations);
    if supply.None? {
      return Overflow;
    }
    SupplyParts(allocations, staked, xs);
    sum := AddUnlockAmounts(sum, Chosen(allocations, staked, false));
    var skipped := Chosen(allocations, staked, true);
    var stakes := Stake(sum, skipped, stakers);
    if stakes.None? {
      return Panics;
    }
    SplitConserves(skipped, Share(Sum(skipped, All), stakers), stakers, All);
    SplitIsExact(skipped, stakers);
    SharesWeigh(stakes.value.1, Sum(skipped, All), stakers);
    var weighs := AllWeigh(stakes.value.1);
    r := if weighs then Handed(stakes.value.0, stakes.value.1) else NoWeight;
  }
}
