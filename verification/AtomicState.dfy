/** One direction of a shared memory space, chains/atomic/state.go: elements by key, with
tombstones for removals that came before their put, and a linked list of keys per trait.

The trait lists are the reference sequences of LinkedList, which linkeddb refines. */
module AtomicState {
  import opened Options
  import opened ByteStrings
  import opened LinkedList

  type Key = Bytes
  type Trait = Bytes
  type Keys = List<Key, ()>

  datatype Element = Element(key: Key, value: Bytes, traits: seq<Trait>)

  /** dbElement: not present is a tombstone. */
  datatype DbElement = DbElement(present: bool, value: Bytes, traits: seq<Trait>)

  const TOMBSTONE := DbElement(false, [], [])

  type Index = map<Trait, Keys>

  datatype Space = Space(values: map<Key, DbElement>, index: Index)

  const EmptySpace := Space(map[], map[])

  function KeysOf(index: Index, t: Trait): Keys {
    if t in index then index[t] else []
  }

  function Lookup(s: Space, k: Key): Option<DbElement> {
    if k in s.values then Some(s.values[k]) else None
  }

  // ---- the operations -----------------------------------------------------------------------

  function PutTraits(index: Index, traits: seq<Trait>, k: Key): Index {
    if traits == [] then index
    else
      var index1 := PutTraits(index, traits[..|traits| - 1], k);
      var t := traits[|traits| - 1];
      index1[t := PutList(KeysOf(index1, t), k, ())]
  }

  function DeleteTraits(index: Index, traits: seq<Trait>, k: Key): Index {
    if traits == [] then index
    else
      var index1 := DeleteTraits(index, traits[..|traits| - 1], k);
      var t := traits[|traits| - 1];
      index1[t := DeleteList(KeysOf(index1, t), k)]
  }

  /** None is errDuplicatedOperation. */
  function SetValue(s: Space, e: Element): Option<Space> {
    match Lookup(s, e.key)
    case Some(old_) => if old_.present then None else Some(s.(values := s.values - {e.key}))
    case None =>
      Some(Space(s.values[e.key := DbElement(true, e.value, e.traits)], PutTraits(s.index, e.traits, e.key)))
  }

  function RemoveValue(s: Space, k: Key): Option<Space> {
    match Lookup(s, k)
    case None => Some(s.(values := s.values[k := TOMBSTONE]))
    case Some(old_) =>
      if !old_.present then None
      else Some(Space(s.values - {k}, DeleteTraits(s.index, old_.traits, k)))
  }

  function Value(s: Space, k: Key): Option<Element> {
    if k in s.values && s.values[k].present then Some(Element(k, s.values[k].value, s.values[k].traits)) else None
  }

  // ---- index and values agree ---------------------------------------------------------------

  predicate Listed(index: Index, t: Trait, k: Key) {
    HasKey(KeysOf(index, t), k)
  }

  /** Present under this key with this trait. */
  predicate Carries(values: map<Key, DbElement>, t: Trait, k: Key) {
    k in values && values[k].present && t in values[k].traits
  }

  ghost predicate Agree(s: Space) {
    && (forall t :: NoDup(KeysOf(s.index, t)))
    && (forall t, k :: Listed(s.index, t, k) <==> Carries(s.values, t, k))
  }

  lemma {:induction false} DeleteListKeys<K, V>(l: List<K, V>, k: K, k': K)
    ensures HasKey(DeleteList(l, k), k') <==> HasKey(l, k') && k' != k
  {
    if l != [] {
      DeleteListKeys(l[1..], k, k');
      HasKeyCons(l, k');
      if l[0].0 != k {
        assert DeleteList(l, k)[1..] == DeleteList(l[1..], k);
        HasKeyCons(DeleteList(l, k), k');
      }
    }
  }

  lemma HasKeyCons<K, V>(l: List<K, V>, k: K)
    requires l != []
    ensures HasKey(l, k) <==> l[0].0 == k || HasKey(l[1..], k)
  {
    if i :| 0 <= i < |l| && l[i].0 == k && i > 0 { assert l[1..][i - 1].0 == k; }
    if i :| 0 <= i < |l[1..]| && l[1..][i].0 == k { assert l[i + 1].0 == k; }
  }

  lemma {:induction false} DeleteListNoDup<K, V>(l: List<K, V>, k: K)
    requires NoDup(l)
    ensures NoDup(DeleteList(l, k))
  {
    if i :| 0 <= i < |l| && l[i].0 == k {
      DeleteAt(l, i);
    } else if l != [] {
      UpdateAbsent(l, k, l[0].1);
    }
  }

  lemma PutListKeys(l: Keys, k: Key, k': Key)
    requires NoDup(l)
    ensures NoDup(PutList(l, k, ())) && (HasKey(PutList(l, k, ()), k') <==> HasKey(l, k') || k' == k)
  {
    if i :| 0 <= i < |l| && l[i].0 == k {
      UpdateAt(l, i, ());
      var (_, u) := l[i];
      match u { case () => assert l[i] == (k, u); }
      assert l[i := (k, ())] == l;
    } else {
      HasKeyCons(PutList(l, k, ()), k');
      assert PutList(l, k, ())[1..] == l;
    }
  }

  lemma {:induction false} PutTraitsLists(index: Index, traits: seq<Trait>, k: Key, t: Trait, k': Key)
    requires forall u :: NoDup(KeysOf(index, u))
    ensures NoDup(KeysOf(PutTraits(index, traits, k), t))
    ensures Listed(PutTraits(index, traits, k), t, k') <==> Listed(index, t, k') || (k' == k && t in traits)
  {
    if traits != [] {
      var n := |traits| - 1;
      PutTraitsLists(index, traits[..n], k, t, k');
      assert traits == traits[..n] + [traits[n]];
      if t == traits[n] { PutListKeys(KeysOf(PutTraits(index, traits[..n], k), t), k, k'); }
    }
  }

  lemma {:induction false} DeleteTraitsLists(index: Index, traits: seq<Trait>, k: Key, t: Trait, k': Key)
    requires forall u :: NoDup(KeysOf(index, u))
    ensures NoDup(KeysOf(DeleteTraits(index, traits, k), t))
    ensures Listed(DeleteTraits(index, traits, k), t, k') <==> Listed(index, t, k') && !(k' == k && t in traits)
  {
    if traits != [] {
      var n := |traits| - 1;
      DeleteTraitsLists(index, traits[..n], k, t, k');
      assert traits == traits[..n] + [traits[n]];
      if t == traits[n] {
        var l := KeysOf(DeleteTraits(index, traits[..n], k), t);
        DeleteListKeys(l, k, k');
        DeleteListNoDup(l, k);
      }
    }
  }

  lemma SetValueAgrees(s: Space, e: Element)
    requires Agree(s)
    ensures SetValue(s, e).Some? ==> Agree(SetValue(s, e).value)
  {
    if SetValue(s, e).Some? {
      var s' := SetValue(s, e).value;
      forall t
        ensures NoDup(KeysOf(s'.index, t))
      {
        if e.key !in s.values { PutTraitsLists(s.index, e.traits, e.key, t, e.key); }
      }
      forall t, k
        ensures Listed(s'.index, t, k) <==> Carries(s'.values, t, k)
      {
        assert Listed(s.index, t, k) <==> Carries(s.values, t, k);
        if e.key !in s.values { PutTraitsLists(s.index, e.traits, e.key, t, k); }
      }
    }
  }

  lemma RemoveValueAgrees(s: Space, key: Key)
    requires Agree(s)
    ensures RemoveValue(s, key).Some? ==> Agree(RemoveValue(s, key).value)
  {
    if RemoveValue(s, key).Some? {
      var s' := RemoveValue(s, key).value;
      forall t
        ensures NoDup(KeysOf(s'.index, t))
      {
        if key in s.values { DeleteTraitsLists(s.index, s.values[key].traits, key, t, key); }
      }
      forall t, k
        ensures Listed(s'.index, t, k) <==> Carries(s'.values, t, k)
      {
        assert Listed(s.index, t, k) <==> Carries(s.values, t, k);
        if key in s.values { DeleteTraitsLists(s.index, s.values[key].traits, key, t, k); }
      }
    }
  }

  // ---- runs ---------------------------------------------------------------------------------

  datatype Op = PutOp(element: Element) | RemoveOp(removed: Key)

  function Step(s: Space, op: Op): Option<Space> {
    match op
    case PutOp(e) => SetValue(s, e)
    case RemoveOp(k) => RemoveValue(s, k)
  }

  /** All the operations in order; None as soon as one of them is a duplicate. */
  function Run(s: Space, ops: seq<Op>): Option<Space> {
    if ops == [] then Some(s)
    else
      match Run(s, ops[..|ops| - 1])
      case None => None
      case Some(s1) => Step(s1, ops[|ops| - 1])
  }

  lemma StepAgrees(s: Space, op: Op)
    requires Agree(s)
    ensures Step(s, op).Some? ==> Agree(Step(s, op).value)
  {
    match op
    case PutOp(e) => SetValueAgrees(s, e);
    case RemoveOp(k) => RemoveValueAgrees(s, k);
  }

  /** In every reachable space a key is in a trait's list exactly when its element is present and
      lists that trait, duplicated traits and tombstones included. */
  lemma {:induction false} RunAgrees(s: Space, ops: seq<Op>)
    requires Agree(s)
    ensures Run(s, ops).Some? ==> Agree(Run(s, ops).value)
  {
    if ops != [] && Run(s, ops).Some? {
      RunAgrees(s, ops[..|ops| - 1]);
      StepAgrees(Run(s, ops[..|ops| - 1]).value, ops[|ops| - 1]);
    }
  }

  /** So Indexed finds the value of every key that the index yields. */
  lemma IndexedKeyHasValue(ops: seq<Op>, t: Trait, k: Key)
    requires Run(EmptySpace, ops).Some? && Listed(Run(EmptySpace, ops).value.index, t, k)
    ensures Value(Run(EmptySpace, ops).value, k).Some? && t in Value(Run(EmptySpace, ops).value, k).value.traits
  {
    RunAgrees(EmptySpace, ops);
    var s := Run(EmptySpace, ops).value;
    assert Listed(s.index, t, k) <==> Carries(s.values, t, k);
  }

  // ---- which operations are refused, and what the others leave ------------------------------

  function KeyOf(op: Op): Key {
    match op
    case PutOp(e) => e.key
    case RemoveOp(k) => k
  }

  /** 1 for a present element, -1 for a tombstone, 0 for nothing. */
  function Standing(e: Option<DbElement>): int {
    if e.None? then 0 else if e.value.present then 1 else -1
  }

  /** The puts of a key less its removes. */
  function Net(ops: seq<Op>, k: Key): int {
    if ops == [] then 0
    else
      var op := ops[|ops| - 1];
      Net(ops[..|ops| - 1], k) + if KeyOf(op) != k then 0 else if op.PutOp? then 1 else -1
  }

  /** The i-th operation puts a key that is present by then, or removes one that was removed ahead of its put:
      `was` is what was there before, and the balance of puts and removes since then says what is there now. */
  predicate Refused(was: Key -> Option<DbElement>, ops: seq<Op>, i: nat)
    requires i < |ops|
  {
    var k := KeyOf(ops[i]);
    Standing(was(k)) + Net(ops[..i], k) == if ops[i].PutOp? then 1 else -1
  }

  ghost predicate AnyRefused(was: Key -> Option<DbElement>, ops: seq<Op>) {
    exists i: nat :: i < |ops| && Refused(was, ops, i)
  }

  predicate Mentions(ops: seq<Op>, k: Key) {
    exists i :: 0 <= i < |ops| && KeyOf(ops[i]) == k
  }

  /** What operations that are not refused leave under a key. */
  function Left(was: Option<DbElement>, ops: seq<Op>, k: Key): Option<DbElement> {
    var n := Standing(was) + Net(ops, k);
    if !Mentions(ops, k) then was
    else if n == 0 then None
    else if n < 0 then Some(TOMBSTONE)
    else
      match PutOf(ops, k)
      case Some(e) => Some(DbElement(true, e.value, e.traits))
      case None => None
  }

  lemma RefusedBefore(was: Key -> Option<DbElement>, ops: seq<Op>)
    requires ops != []
    ensures AnyRefused(was, ops) <==> AnyRefused(was, ops[..|ops| - 1]) || Refused(was, ops, |ops| - 1)
  {
    var n := |ops| - 1;
    forall i: nat | i < n
      ensures Refused(was, ops[..n], i) <==> Refused(was, ops, i)
    {
      assert ops[..n][..i] == ops[..i];
    }
    if AnyRefused(was, ops) {
      var i: nat :| i < |ops| && Refused(was, ops, i);
      if i < n { assert Refused(was, ops[..n], i); }
    }
    if AnyRefused(was, ops[..n]) {
      var i: nat :| i < n && Refused(was, ops[..n], i);
      assert Refused(was, ops, i);
    }
  }

  lemma SameRefused(was: Key -> Option<DbElement>, was': Key -> Option<DbElement>, ops: seq<Op>)
    requires forall k :: was(k) == was'(k)
    ensures AnyRefused(was, ops) <==> AnyRefused(was', ops)
  {
    if i: nat :| i < |ops| && Refused(was, ops, i) { assert Refused(was', ops, i); }
    if i: nat :| i < |ops| && Refused(was', ops, i) { assert Refused(was, ops, i); }
  }

  lemma LeftAfter(was: Option<DbElement>, ops: seq<Op>, k: Key)
    requires ops != []
    ensures var n, op := |ops| - 1, ops[|ops| - 1];
            && (Mentions(ops, k) <==> Mentions(ops[..n], k) || KeyOf(op) == k)
            && (KeyOf(op) != k ==> Left(was, ops, k) == Left(was, ops[..n], k))
  {
    var n := |ops| - 1;
    if i :| 0 <= i < n && KeyOf(ops[i]) == k { assert KeyOf(ops[..n][i]) == k; }
    if i :| 0 <= i < n && KeyOf(ops[..n][i]) == k { assert KeyOf(ops[i]) == k; }
    if KeyOf(ops[n]) == k { assert KeyOf(ops[n]) == k; }
  }

  /** A single operation, seen from one key: refused exactly on a balance that would leave -1 to 1. */
  lemma StepLeaves(s: Space, op: Op, k: Key)
    ensures Step(s, op).None? <==> Standing(Lookup(s, KeyOf(op))) == if op.PutOp? then 1 else -1
    ensures Step(s, op).Some? ==>
              Lookup(Step(s, op).value, k) ==
                if KeyOf(op) != k then Lookup(s, k)
                else if op.PutOp? && Lookup(s, k).None? then Some(DbElement(true, op.element.value, op.element.traits))
                else if !op.PutOp? && Lookup(s, k).None? then Some(TOMBSTONE)
                else None
  {
  }

  /** From any space, the operations fail exactly if one of them puts a key that is present by then, or removes
      one that was removed ahead of its put; and otherwise they leave under every key what their balance says. */
  lemma {:induction false} RunRefuses(s: Space, ops: seq<Op>)
    ensures Run(s, ops) == None <==> AnyRefused(k => Lookup(s, k), ops)
    ensures Run(s, ops).Some? ==>
              forall k :: Lookup(Run(s, ops).value, k) == Left(Lookup(s, k), ops, k)
                          && Standing(Lookup(Run(s, ops).value, k)) == Standing(Lookup(s, k)) + Net(ops, k)
  {
    if ops != [] {
      var n := |ops| - 1;
      RunRefuses(s, ops[..n]);
      RefusedBefore(k => Lookup(s, k), ops);
      if Run(s, ops[..n]).Some? { OneMoreLeaves(s, ops); }
    }
  }

  lemma OneMoreLeaves(s: Space, ops: seq<Op>)
    requires ops != [] && Run(s, ops[..|ops| - 1]).Some?
    requires var s1 := Run(s, ops[..|ops| - 1]).value;
             forall k :: Lookup(s1, k) == Left(Lookup(s, k), ops[..|ops| - 1], k)
                         && Standing(Lookup(s1, k)) == Standing(Lookup(s, k)) + Net(ops[..|ops| - 1], k)
    ensures Run(s, ops) == None <==> Refused(k => Lookup(s, k), ops, |ops| - 1)
    ensures Run(s, ops).Some? ==>
              forall k :: Lookup(Run(s, ops).value, k) == Left(Lookup(s, k), ops, k)
                          && Standing(Lookup(Run(s, ops).value, k)) == Standing(Lookup(s, k)) + Net(ops, k)
  {
    var n := |ops| - 1;
    var s1, op := Run(s, ops[..n]).value, ops[n];
    StepLeaves(s1, op, KeyOf(op));
    assert Standing(Lookup(s1, KeyOf(op))) == Standing(Lookup(s, KeyOf(op))) + Net(ops[..n], KeyOf(op));
    if Run(s, ops).Some? {
      forall k
        ensures Lookup(Run(s, ops).value, k) == Left(Lookup(s, k), ops, k)
        ensures Standing(Lookup(Run(s, ops).value, k)) == Standing(Lookup(s, k)) + Net(ops, k)
      {
        assert Lookup(s1, k) == Left(Lookup(s, k), ops[..n], k);
        StepLeaves(s1, op, k);
        LeftAfter(Lookup(s, k), ops, k);
      }
    }
  }

  // ---- order independence -------------------------------------------------------------------

  /** Each key is put at most once and removed at most once. */
  predicate AtMostOnce(ops: seq<Op>) {
    forall i, j :: 0 <= i < j < |ops| && KeyOf(ops[i]) == KeyOf(ops[j]) ==> ops[i].PutOp? != ops[j].PutOp?
  }

  function PutOf(ops: seq<Op>, k: Key): Option<Element> {
    if ops == [] then None
    else
      var op := ops[|ops| - 1];
      if op.PutOp? && op.element.key == k then Some(op.element) else PutOf(ops[..|ops| - 1], k)
  }

  predicate Removes(ops: seq<Op>, k: Key) {
    RemoveOp(k) in ops
  }

  /** What the operations leave under `k`, whatever their order: put only is present, remove only is
      a tombstone, both is absent. */
  function Expected(s: Space, ops: seq<Op>, k: Key): Option<DbElement> {
    match PutOf(ops, k)
    case Some(e) => if Removes(ops, k) then None else Some(DbElement(true, e.value, e.traits))
    case None => if Removes(ops, k) then Some(TOMBSTONE) else Lookup(s, k)
  }

  lemma {:induction false} PutOfMember(ops: seq<Op>, k: Key)
    ensures PutOf(ops, k).Some? ==> PutOf(ops, k).value.key == k && PutOp(PutOf(ops, k).value) in ops
    ensures PutOf(ops, k).None? ==> forall i :: 0 <= i < |ops| ==> ops[i].PutOp? ==> ops[i].element.key != k
  {
    if ops != [] {
      PutOfMember(ops[..|ops| - 1], k);
      assert ops == ops[..|ops| - 1] + [ops[|ops| - 1]];
    }
  }

  /** Before the last operation its key has seen at most the opposite kind. */
  lemma BeforeLast(ops: seq<Op>)
    requires AtMostOnce(ops) && ops != []
    ensures var n := |ops| - 1;
            AtMostOnce(ops[..n]) &&
            (if ops[n].PutOp? then PutOf(ops[..n], KeyOf(ops[n])).None? else !Removes(ops[..n], KeyOf(ops[n])))
  {
    var n := |ops| - 1;
    PutOfMember(ops[..n], KeyOf(ops[n]));
    assert forall i :: 0 <= i < n ==> ops[..n][i] == ops[i];
  }

  /** Every order succeeds and leaves what Expected says. */
  lemma {:induction false} RunGivesExpected(s: Space, ops: seq<Op>)
    requires AtMostOnce(ops) && forall i :: 0 <= i < |ops| ==> KeyOf(ops[i]) !in s.values
    ensures Run(s, ops).Some?
    ensures forall k :: Lookup(Run(s, ops).value, k) == Expected(s, ops, k)
  {
    if ops != [] {
      var n := |ops| - 1;
      BeforeLast(ops);
      RunGivesExpected(s, ops[..n]);
      var s1, op := Run(s, ops[..n]).value, ops[n];
      assert Lookup(s1, KeyOf(op)) == Expected(s, ops[..n], KeyOf(op));
      forall k
        ensures Lookup(Run(s, ops).value, k) == Expected(s, ops, k)
      {
        assert Lookup(s1, k) == Expected(s, ops[..n], k);
        assert ops == ops[..n] + [op];
        assert Removes(ops, k) <==> Removes(ops[..n], k) || op == RemoveOp(k);
      }
    }
  }

  lemma {:induction false} NetOnce(ops: seq<Op>, k: Key)
    requires AtMostOnce(ops)
    ensures Net(ops, k) == (if PutOf(ops, k).Some? then 1 else 0) - (if Removes(ops, k) then 1 else 0)
    ensures Mentions(ops, k) <==> PutOf(ops, k).Some? || Removes(ops, k)
  {
    if ops != [] {
      var n := |ops| - 1;
      BeforeLast(ops);
      NetOnce(ops[..n], k);
      LeftAfter(None, ops, k);
      assert ops == ops[..n] + [ops[n]];
      assert Removes(ops, k) <==> Removes(ops[..n], k) || ops[n] == RemoveOp(k);
    }
  }

  lemma LeftIgnoresOrder(was: Option<DbElement>, ops: seq<Op>, ops': seq<Op>, k: Key)
    requires AtMostOnce(ops) && AtMostOnce(ops') && forall op :: op in ops <==> op in ops'
    ensures Left(was, ops, k) == Left(was, ops', k)
  {
    NetOnce(ops, k);
    NetOnce(ops', k);
    PutOfMember(ops, k);
    PutOfMember(ops', k);
  }

  /** Two orders of the same operations both succeed on unregistered keys; and from any space, if both
      succeed, they leave the same values and the same trait membership. */
  lemma OrderIndependence(s: Space, ops: seq<Op>, ops': seq<Op>, t: Trait, k: Key)
    requires Agree(s) && AtMostOnce(ops) && AtMostOnce(ops') && (forall op :: op in ops <==> op in ops')
    ensures (forall op :: op in ops ==> KeyOf(op) !in s.values) ==> Run(s, ops).Some? && Run(s, ops').Some?
    ensures Run(s, ops).Some? && Run(s, ops').Some? ==>
              && Run(s, ops).value.values == Run(s, ops').value.values
              && (Listed(Run(s, ops).value.index, t, k) <==> Listed(Run(s, ops').value.index, t, k))
  {
    if forall op :: op in ops ==> KeyOf(op) !in s.values {
      assert forall i :: 0 <= i < |ops'| ==> ops'[i] in ops';
      RunGivesExpected(s, ops);
      RunGivesExpected(s, ops');
    }
    if Run(s, ops).Some? && Run(s, ops').Some? { OrdersEndAlike(s, ops, ops', t, k); }
  }

  lemma OrdersEndAlike(s: Space, ops: seq<Op>, ops': seq<Op>, t: Trait, k: Key)
    requires Agree(s) && AtMostOnce(ops) && AtMostOnce(ops') && (forall op :: op in ops <==> op in ops')
    requires Run(s, ops).Some? && Run(s, ops').Some?
    ensures Run(s, ops).value.values == Run(s, ops').value.values
    ensures Listed(Run(s, ops).value.index, t, k) <==> Listed(Run(s, ops').value.index, t, k)
  {
    RunRefuses(s, ops);
    RunRefuses(s, ops');
    var a, b := Run(s, ops).value, Run(s, ops').value;
    forall x
      ensures Lookup(a, x) == Lookup(b, x)
    {
      LeftIgnoresOrder(Lookup(s, x), ops, ops', x);
    }
    SameLookups(a, b);
    RunAgrees(s, ops);
    RunAgrees(s, ops');
    assert Listed(a.index, t, k) <==> Carries(a.values, t, k);
    assert Listed(b.index, t, k) <==> Carries(b.values, t, k);
  }

  lemma SameLookups(a: Space, b: Space)
    requires forall x :: Lookup(a, x) == Lookup(b, x)
    ensures a.values == b.values
  {
    assert forall x :: x in a.values ==> Lookup(b, x) == Some(a.values[x]);
    assert forall x :: x in b.values ==> Lookup(a, x) == Some(b.values[x]);
  }
}
