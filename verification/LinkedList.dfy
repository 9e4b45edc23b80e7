/** The stored form of database/linkeddb/linkeddb.go: a doubly linked list of nodes and a head
pointer inside a key-value store, and what Put and Delete do to it.

The reference is a plain sequence of key/value pairs. `Holds(d, l)` says that the store `d` is
exactly the linked-list layout of `l`. */
module LinkedList {
  import opened Options
  import opened ByteStrings

  type List<K, V> = seq<(K, V)>

  /** A list node. HasNext/Next and HasPrevious/Previous are one option each. */
  datatype Node<K, V> = Node(value: V, next: Option<K>, previous: Option<K>)

  /** The decoded contents of the list's database: the value under headKey and the nodes. */
  datatype Data<K, V> = Data(head: Option<K>, nodes: map<K, Node<K, V>>)

  const HEAD_KEY: Bytes := [1]

  function NodeKey(k: Bytes): Bytes {
    [0] + k
  }

  /** The head pointer and the nodes live under different database keys, and so do any two nodes. */
  lemma KeysNeverCollide(k: Bytes, k': Bytes)
    ensures NodeKey(k) != HEAD_KEY
    ensures NodeKey(k) == NodeKey(k') <==> k == k'
  {
    assert NodeKey(k)[0] == 0 && HEAD_KEY[0] == 1;
    assert NodeKey(k)[1..] == k && NodeKey(k')[1..] == k';
  }

  function LookupNode<K, V>(d: Data<K, V>, k: K): Option<Node<K, V>> {
    if k in d.nodes then Some(d.nodes[k]) else None
  }

  function SetNode<K, V>(d: Data<K, V>, k: K, n: Node<K, V>): Data<K, V> {
    d.(nodes := d.nodes[k := n])
  }

  // ---- the reference ------------------------------------------------------------------------

  predicate HasKey<K(==), V>(l: List<K, V>, k: K) {
    exists i :: 0 <= i < |l| && l[i].0 == k
  }

  ghost predicate NoDup<K, V>(l: List<K, V>) {
    forall i, j :: 0 <= i < j < |l| ==> l[i].0 != l[j].0
  }

  /** A new key goes to the front; an old one keeps its place. */
  function PutList<K(==), V>(l: List<K, V>, k: K, v: V): List<K, V> {
    if HasKey(l, k) then UpdateList(l, k, v) else [(k, v)] + l
  }

  function UpdateList<K(==), V>(l: List<K, V>, k: K, v: V): List<K, V> {
    if l == [] then [] else (if l[0].0 == k then [(k, v)] else [l[0]]) + UpdateList(l[1..], k, v)
  }

  function DeleteList<K(==), V>(l: List<K, V>, k: K): List<K, V> {
    if l == [] then []
    else if l[0].0 == k then DeleteList(l[1..], k)
    else [l[0]] + DeleteList(l[1..], k)
  }

  // ---- the layout ---------------------------------------------------------------------------

  function NodeAt<K, V>(l: List<K, V>, i: nat): Node<K, V>
    requires i < |l|
  {
    Node(l[i].1, if i + 1 < |l| then Some(l[i + 1].0) else None, if i > 0 then Some(l[i - 1].0) else None)
  }

  ghost predicate NodeOk<K, V>(d: Data<K, V>, l: List<K, V>, i: int) {
    0 <= i < |l| ==> l[i].0 in d.nodes && d.nodes[l[i].0] == NodeAt(l, i)
  }

  ghost predicate Holds<K(!new), V>(d: Data<K, V>, l: List<K, V>) {
    && NoDup(l)
    && (forall i :: NodeOk(d, l, i))
    && (forall k :: k in d.nodes ==> HasKey(l, k))
    && d.head == (if l == [] then None else Some(l[0].0))
  }

  lemma StoredKeys<K(!new), V>(d: Data<K, V>, l: List<K, V>, k: K)
    requires Holds(d, l)
    ensures k in d.nodes <==> HasKey(l, k)
    ensures k in d.nodes ==> (k, d.nodes[k].value) in l
  {
    if i :| 0 <= i < |l| && l[i].0 == k { assert NodeOk(d, l, i) && l[i] in l; }
  }

  // ---- what the code writes -----------------------------------------------------------------

  function PutData<K, V>(d: Data<K, V>, k: K, v: V): Data<K, V> {
    match LookupNode(d, k)
    case Some(n) => SetNode(d, k, n.(value := v))
    case None =>
      match d.head
      case None => SetNode(d, k, Node(v, None, None)).(head := Some(k))
      case Some(h) =>
        match LookupNode(d, h)
        case None => d
        case Some(o) =>
          var d1 := SetNode(d, h, o.(previous := Some(k)));
          SetNode(d1, k, Node(v, Some(h), None)).(head := Some(k))
  }

  /** The node under `k`, if there is one, with one pointer changed. */
  function SetPrevious<K, V>(d: Data<K, V>, k: K, p: Option<K>): Data<K, V> {
    if k in d.nodes then SetNode(d, k, d.nodes[k].(previous := p)) else d
  }

  function SetNext<K, V>(d: Data<K, V>, k: K, n: Option<K>): Data<K, V> {
    if k in d.nodes then SetNode(d, k, d.nodes[k].(next := n)) else d
  }

  /** Relink the neighbours of `cur`, which is being deleted. */
  function Unlink<K, V>(d: Data<K, V>, cur: Node<K, V>): Data<K, V> {
    var d1 := if cur.previous.Some? then SetNext(d, cur.previous.value, cur.next) else d.(head := cur.next);
    if cur.next.Some? then SetPrevious(d1, cur.next.value, cur.previous) else d1
  }

  function DeleteData<K, V>(d: Data<K, V>, k: K): Data<K, V> {
    match LookupNode(d, k)
    case None => d
    case Some(cur) => Unlink(d.(nodes := d.nodes - {k}), cur)
  }

  // ---- the batches that write it ------------------------------------------------------------

  datatype Write<K, V> = PutNodeW(key: K, node: Node<K, V>) | DeleteNodeW(key: K) | PutHeadW(key: K) | DeleteHeadW

  function ApplyWrite<K, V>(d: Data<K, V>, w: Write<K, V>): Data<K, V> {
    match w
    case PutNodeW(k, n) => SetNode(d, k, n)
    case DeleteNodeW(k) => d.(nodes := d.nodes - {k})
    case PutHeadW(k) => d.(head := Some(k))
    case DeleteHeadW => d.(head := None)
  }

  function ApplyBatch<K, V>(d: Data<K, V>, ws: seq<Write<K, V>>): Data<K, V> {
    if ws == [] then d else ApplyWrite(ApplyBatch(d, ws[..|ws| - 1]), ws[|ws| - 1])
  }

  /** The batch of Put, from what it reads: the node of `k`, the head, and the node of the head. */
  function PutWrites<K, V>(existing: Option<Node<K, V>>, head: Option<K>, headNode: Option<Node<K, V>>, k: K, v: V): seq<Write<K, V>> {
    if existing.Some? then [PutNodeW(k, existing.value.(value := v))]
    else if head.None? then [PutNodeW(k, Node(v, None, None)), PutHeadW(k)]
    else if headNode.None? then []
    else [PutNodeW(head.value, headNode.value.(previous := Some(k))), PutNodeW(k, Node(v, head, None)), PutHeadW(k)]
  }

  /** The batch of Delete, from the node of `k` and those of its neighbours. */
  function DeleteWrites<K, V>(cur: Option<Node<K, V>>, previous: Option<Node<K, V>>, next: Option<Node<K, V>>, k: K): seq<Write<K, V>> {
    if cur.None? then []
    else
      [DeleteNodeW(k)] +
      (if cur.value.previous.None? then [if cur.value.next.Some? then PutHeadW(cur.value.next.value) else DeleteHeadW]
       else if previous.Some? then [PutNodeW(cur.value.previous.value, previous.value.(next := cur.value.next))] else []) +
      (if cur.value.next.Some? && next.Some? then [PutNodeW(cur.value.next.value, next.value.(previous := cur.value.previous))] else [])
  }

  /** The node under a key that may be missing. */
  function NodeUnder<K, V>(d: Data<K, V>, k: Option<K>): Option<Node<K, V>> {
    if k.Some? then LookupNode(d, k.value) else None
  }

  lemma PutBatch<K, V>(d: Data<K, V>, k: K, v: V)
    ensures ApplyBatch(d, PutWrites(LookupNode(d, k), d.head, NodeUnder(d, d.head), k, v)) == PutData(d, k, v)
  {
    var ws := PutWrites(LookupNode(d, k), d.head, NodeUnder(d, d.head), k, v);
    BatchOfThree(d, ws);
  }

  lemma DeleteBatch<K(!new), V>(d: Data<K, V>, l: List<K, V>, k: K)
    requires Holds(d, l)
    ensures var cur := LookupNode(d, k);
            var previous, next := if cur.Some? then NodeUnder(d, cur.value.previous) else None, if cur.Some? then NodeUnder(d, cur.value.next) else None;
            ApplyBatch(d, DeleteWrites(cur, previous, next, k)) == DeleteData(d, k)
  {
    var cur := LookupNode(d, k);
    if cur.Some? {
      var i :| 0 <= i < |l| && l[i].0 == k;
      assert NodeOk(d, l, i) && NodeOk(d, l, i - 1) && NodeOk(d, l, i + 1);
      BatchOfThree(d, DeleteWrites(cur, NodeUnder(d, cur.value.previous), NodeUnder(d, cur.value.next), k));
    }
  }

  lemma BatchOfThree<K, V>(d: Data<K, V>, ws: seq<Write<K, V>>)
    requires |ws| <= 3
    ensures ApplyBatch(d, ws) ==
            if |ws| == 0 then d
            else if |ws| == 1 then ApplyWrite(d, ws[0])
            else if |ws| == 2 then ApplyWrite(ApplyWrite(d, ws[0]), ws[1])
            else ApplyWrite(ApplyWrite(ApplyWrite(d, ws[0]), ws[1]), ws[2])
  {
    if |ws| == 3 { assert ws[..2][..1] == ws[..1] && ws[..1][..0] == []; }
    if |ws| == 2 { assert ws[..1][..0] == []; }
  }

  // ---- Put and Delete follow the reference --------------------------------------------------

  lemma {:induction false} UpdateAbsent<K, V>(l: List<K, V>, k: K, v: V)
    requires !HasKey(l, k)
    ensures UpdateList(l, k, v) == l && DeleteList(l, k) == l
  {
    if l != [] {
      assert l[0].0 != k;
      assert forall i :: 0 <= i < |l| - 1 ==> l[1..][i].0 == l[i + 1].0;
      UpdateAbsent(l[1..], k, v);
    }
  }

  lemma {:induction false} UpdateAt<K, V>(l: List<K, V>, i: nat, v: V)
    requires NoDup(l) && i < |l|
    ensures UpdateList(l, l[i].0, v) == l[i := (l[i].0, v)]
  {
    if i == 0 {
      UpdateAbsent(l[1..], l[0].0, v);
    } else {
      UpdateAt(l[1..], i - 1, v);
      assert l[i := (l[i].0, v)] == [l[0]] + l[1..][i - 1 := (l[i].0, v)];
    }
  }

  lemma {:induction false} DeleteAt<K, V>(l: List<K, V>, i: nat)
    requires NoDup(l) && i < |l|
    ensures DeleteList(l, l[i].0) == l[..i] + l[i + 1..]
  {
    if i == 0 {
      UpdateAbsent(l[1..], l[0].0, l[0].1);
    } else {
      DeleteAt(l[1..], i - 1);
      assert l[..i] + l[i + 1..] == [l[0]] + (l[1..][..i - 1] + l[1..][i..]);
    }
  }

  lemma SameKeys<K(!new), V>(l: List<K, V>, i: nat, v: V)
    requires NoDup(l) && i < |l|
    ensures var l' := l[i := (l[i].0, v)];
            && NoDup(l')
            && (forall j :: 0 <= j < |l| ==> l'[j].0 == l[j].0)
            && (forall j :: 0 <= j < |l| ==> NodeAt(l', j) == if j == i then NodeAt(l, i).(value := v) else NodeAt(l, j))
            && (forall k :: HasKey(l, k) ==> HasKey(l', k))
  {
    var l' := l[i := (l[i].0, v)];
    assert forall j :: 0 <= j < |l| ==> l'[j].0 == l[j].0;
  }

  lemma PutExisting<K(!new), V>(d: Data<K, V>, l: List<K, V>, i: nat, v: V)
    requires Holds(d, l) && i < |l|
    ensures Holds(PutData(d, l[i].0, v), PutList(l, l[i].0, v))
  {
    var d', l' := PutData(d, l[i].0, v), l[i := (l[i].0, v)];
    UpdateAt(l, i, v);
    SameKeys(l, i, v);
    assert NodeOk(d, l, i);
    forall j
      ensures NodeOk(d', l', j)
    {
      assert NodeOk(d, l, j);
    }
    assert NodeOk(d, l, 0);
  }

  lemma PutNew<K(!new), V>(d: Data<K, V>, l: List<K, V>, k: K, v: V)
    requires Holds(d, l) && !HasKey(l, k)
    ensures Holds(PutData(d, k, v), PutList(l, k, v))
  {
    var d', l' := PutData(d, k, v), [(k, v)] + l;
    assert k !in d.nodes;
    assert NodeOk(d, l, 0);
    forall j
      ensures NodeOk(d', l', j)
    {
      assert NodeOk(d, l, j - 1);
    }
    forall x | x in d'.nodes
      ensures HasKey(l', x)
    {
      if x == k {
        assert l'[0].0 == k;
      } else {
        var j :| 0 <= j < |l| && l[j].0 == x;
        assert l'[j + 1].0 == x;
      }
    }
  }

  // ---- deleting the element at i ----

  /** The list without its i-th element, index by index. */
  lemma WithoutAt<K(!new), V>(l: List<K, V>, i: nat)
    requires NoDup(l) && i < |l|
    ensures var l' := l[..i] + l[i + 1..];
            && NoDup(l') && |l'| == |l| - 1
            && (forall j :: 0 <= j < |l'| ==> l'[j] == l[if j < i then j else j + 1])
            && (forall k :: HasKey(l, k) && k != l[i].0 ==> HasKey(l', k))
  {
    var l' := l[..i] + l[i + 1..];
    forall k | HasKey(l, k) && k != l[i].0
      ensures HasKey(l', k)
    {
      var j :| 0 <= j < |l| && l[j].0 == k;
      assert l'[if j < i then j else j - 1].0 == k;
    }
  }

  /** Deleting changes the nodes of the two neighbours only. */
  lemma NeighboursChange<K(!new), V>(l: List<K, V>, i: nat, j: nat)
    requires NoDup(l) && i < |l| && j < |l| && j != i
    ensures var l' := l[..i] + l[i + 1..];
            var n := NodeAt(l, j);
            NodeAt(l', if j < i then j else j - 1) ==
              if j == i - 1 then n.(next := NodeAt(l, i).next)
              else if j == i + 1 then n.(previous := NodeAt(l, i).previous)
              else n
  {
    WithoutAt(l, i);
  }

  /** Unlink computes those two changes. */
  lemma UnlinkNodes<K(!new), V>(d: Data<K, V>, l: List<K, V>, i: nat, j: nat)
    requires Holds(d, l) && i < |l| && j < |l| && j != i
    ensures var d' := DeleteData(d, l[i].0);
            var l' := l[..i] + l[i + 1..];
            l[j].0 in d'.nodes && d'.nodes[l[j].0] == NodeAt(l', if j < i then j else j - 1)
  {
    NeighboursChange(l, i, j);
    assert NodeOk(d, l, j) && NodeOk(d, l, i) && NodeOk(d, l, i - 1) && NodeOk(d, l, i + 1);
  }

  lemma UnlinkRest<K(!new), V>(d: Data<K, V>, l: List<K, V>, i: nat)
    requires Holds(d, l) && i < |l|
    ensures var d' := DeleteData(d, l[i].0);
            && d'.nodes.Keys == d.nodes.Keys - {l[i].0}
            && d'.head == if i > 0 then d.head else if |l| == 1 then None else Some(l[1].0)
  {
    assert NodeOk(d, l, i) && NodeOk(d, l, i - 1) && NodeOk(d, l, i + 1);
  }

  lemma DeleteExisting<K(!new), V>(d: Data<K, V>, l: List<K, V>, i: nat)
    requires Holds(d, l) && i < |l|
    ensures Holds(DeleteData(d, l[i].0), DeleteList(l, l[i].0))
  {
    var d', l' := DeleteData(d, l[i].0), l[..i] + l[i + 1..];
    DeleteAt(l, i);
    WithoutAt(l, i);
    UnlinkRest(d, l, i);
    forall j
      ensures NodeOk(d', l', j)
    {
      if 0 <= j < |l'| { UnlinkNodes(d, l, i, if j < i then j else j + 1); }
    }
  }

  /** Put refines PutList and Delete refines DeleteList on every list. */
  lemma PutRefines<K(!new), V>(d: Data<K, V>, l: List<K, V>, k: K, v: V)
    requires Holds(d, l)
    ensures Holds(PutData(d, k, v), PutList(l, k, v))
  {
    if i :| 0 <= i < |l| && l[i].0 == k { PutExisting(d, l, i, v); } else { PutNew(d, l, k, v); }
  }

  lemma DeleteRefines<K(!new), V>(d: Data<K, V>, l: List<K, V>, k: K)
    requires Holds(d, l)
    ensures Holds(DeleteData(d, k), DeleteList(l, k))
  {
    if i :| 0 <= i < |l| && l[i].0 == k {
      DeleteExisting(d, l, i);
    } else {
      if l != [] { UpdateAbsent(l, k, l[0].1); }
    }
  }

  /** A store holds at most one list, so the reference is determined by the stored data. */
  lemma HoldsUnique<K(!new), V>(d: Data<K, V>, l: List<K, V>, l': List<K, V>)
    requires Holds(d, l) && Holds(d, l') && |l| <= |l'|
    ensures l == l'
  {
    HoldsPrefix(d, l, l', |l|);
    if l != [] {
      var n := |l| - 1;
      assert l[..|l|][n] == l'[..|l|][n];
      assert NodeOk(d, l, n) && NodeOk(d, l', n);
    }
  }

  lemma {:induction false} HoldsPrefix<K(!new), V>(d: Data<K, V>, l: List<K, V>, l': List<K, V>, n: nat)
    requires Holds(d, l) && Holds(d, l') && n <= |l| <= |l'|
    ensures l[..n] == l'[..n]
  {
    if n > 0 {
      HoldsPrefix(d, l, l', n - 1);
      if n > 1 { assert l[..n - 1][n - 2] == l'[..n - 1][n - 2]; }
      assert NodeOk(d, l, n - 2) && NodeOk(d, l', n - 2) && NodeOk(d, l, n - 1) && NodeOk(d, l', n - 1);
      assert l[n - 1] == l'[n - 1];
      assert l[..n] == l[..n - 1] + [l[n - 1]] && l'[..n] == l'[..n - 1] + [l'[n - 1]];
    }
  }

  // ---- runs ---------------------------------------------------------------------------------

  datatype Call<K, V> = PutCall(key: K, value: V) | DeleteCall(key: K)

  function RunData<K, V>(calls: seq<Call<K, V>>): Data<K, V> {
    if calls == [] then Data(None, map[])
    else
      var d := RunData(calls[..|calls| - 1]);
      match calls[|calls| - 1]
      case PutCall(k, v) => PutData(d, k, v)
      case DeleteCall(k) => DeleteData(d, k)
  }

  function RunList<K(==), V>(calls: seq<Call<K, V>>): List<K, V> {
    if calls == [] then []
    else
      var l := RunList(calls[..|calls| - 1]);
      match calls[|calls| - 1]
      case PutCall(k, v) => PutList(l, k, v)
      case DeleteCall(k) => DeleteList(l, k)
  }

  /** After any run the stored nodes and head are one doubly linked list, the reference sequence. */
  lemma {:induction false} RunRefines<K(!new), V>(calls: seq<Call<K, V>>)
    ensures Holds(RunData(calls), RunList(calls))
  {
    if calls != [] {
      var n := |calls| - 1;
      RunRefines(calls[..n]);
      match calls[n]
      case PutCall(k, v) => PutRefines(RunData(calls[..n]), RunList(calls[..n]), k, v);
      case DeleteCall(k) => DeleteRefines(RunData(calls[..n]), RunList(calls[..n]), k);
    }
  }
}
