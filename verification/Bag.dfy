/** The bag of votes, ids/bag.go, and the comparison of ID lists through it, ids/slice.go. */
module Bag {
  import opened Bits

  /** One effective AddCount. */
  datatype Vote = Vote(id: Id, count: int)

  datatype State = State(counts: map<Id, int>, size: int, mode: Id, modeFreq: int, threshold: int, met: set<Id>)

  const Empty := State(map[], 0, ZERO_ID, 0, 0, {})

  function CountOf(counts: map<Id, int>, id: Id): int {
    if id in counts then counts[id] else 0
  }

  function WithCount(s: State, v: Vote): State {
    if v.count <= 0 then s
    else
      var total := CountOf(s.counts, v.id) + v.count;
      var (mode, freq) := if total > s.modeFreq then (v.id, total) else (s.mode, s.modeFreq);
      State(s.counts[v.id := total], s.size + v.count, mode, freq, s.threshold,
            if total >= s.threshold then s.met + {v.id} else s.met)
  }

  function AtLeast(counts: map<Id, int>, threshold: int): set<Id> {
    set id | id in counts && counts[id] >= threshold
  }

  function WithThreshold(s: State, threshold: int): State {
    if s.threshold == threshold then s else s.(threshold := threshold, met := AtLeast(s.counts, threshold))
  }

  // ---- what the fields mean -----------------------------------------------------------------

  /** The multiset of votes that were added; counts of zero or less add nothing. */
  function Votes(h: seq<Vote>): multiset<Id> {
    if h == [] then multiset{}
    else
      var m, v := Votes(h[..|h| - 1]), h[|h| - 1];
      if v.count > 0 then m[v.id := m[v.id] + v.count] else m
  }

  /** After n votes the mode had reached its count, and before that nothing had. */
  ghost predicate FirstAt(h: seq<Vote>, mode: Id, freq: int, n: nat) {
    && n <= |h| && Votes(h[..n])[mode] == freq
    && forall m, id :: 0 <= m < n ==> Votes(h[..m])[id] < freq
  }

  ghost predicate CountsOk(s: State, votes: multiset<Id>) {
    && (forall id :: CountOf(s.counts, id) == votes[id])
    && (forall id :: id in s.counts ==> s.counts[id] > 0)
    && s.size == |votes|
  }

  /** The mode is an element of maximal count, the first to have reached it. */
  ghost predicate ModeOk(s: State, h: seq<Vote>) {
    && s.modeFreq >= 0 && (forall id :: Votes(h)[id] <= s.modeFreq)
    && (s.modeFreq > 0 ==> exists n :: FirstAt(h, s.mode, s.modeFreq, n))
  }

  /** The threshold set is exactly the IDs added at least that often. */
  ghost predicate ThresholdOk(s: State) {
    forall id :: id in s.met <==> id in s.counts && s.counts[id] >= s.threshold
  }

  ghost predicate Ok(s: State, h: seq<Vote>) {
    CountsOk(s, Votes(h)) && ModeOk(s, h) && ThresholdOk(s)
  }

  lemma VotesAppend(h: seq<Vote>, v: Vote)
    ensures Votes(h + [v]) == if v.count > 0 then Votes(h)[v.id := Votes(h)[v.id] + v.count] else Votes(h)
  {
    assert (h + [v])[..|h|] == h;
  }

  lemma {:induction false} VotesGrow(h: seq<Vote>, m: nat, id: Id)
    requires m <= |h|
    ensures Votes(h[..m])[id] <= Votes(h)[id]
  {
    if m < |h| {
      VotesGrow(h[..|h| - 1], m, id);
      assert h[..|h| - 1][..m] == h[..m];
    } else {
      assert h[..m] == h;
    }
  }

  lemma FirstKept(h: seq<Vote>, v: Vote, mode: Id, freq: int, n: nat)
    requires FirstAt(h, mode, freq, n)
    ensures FirstAt(h + [v], mode, freq, n)
  {
    assert forall m :: 0 <= m <= n ==> (h + [v])[..m] == h[..m];
  }

  /** A count above everything so far is reached here for the first time. */
  lemma FirstNow(h: seq<Vote>, v: Vote, freq: int)
    requires Votes(h + [v])[v.id] == freq && forall id :: Votes(h)[id] < freq
    ensures FirstAt(h + [v], v.id, freq, |h| + 1)
  {
    var h' := h + [v];
    assert h'[..|h| + 1] == h';
    forall m, id | 0 <= m < |h| + 1
      ensures Votes(h'[..m])[id] < freq
    {
      assert h'[..m] == h[..m];
      VotesGrow(h, m, id);
    }
  }

  lemma AddCountMode(s: State, h: seq<Vote>, v: Vote)
    requires v.count > 0 && ModeOk(s, h) && CountOf(s.counts, v.id) == Votes(h)[v.id]
    ensures ModeOk(WithCount(s, v), h + [v])
  {
    VotesAppend(h, v);
    var total := CountOf(s.counts, v.id) + v.count;
    if total > s.modeFreq {
      FirstNow(h, v, total);
    } else if s.modeFreq > 0 {
      var n :| FirstAt(h, s.mode, s.modeFreq, n);
      FirstKept(h, v, s.mode, s.modeFreq, n);
    }
  }

  /** Every addition keeps all three; one of zero or less changes nothing. */
  lemma AddCountOk(s: State, h: seq<Vote>, v: Vote)
    requires Ok(s, h)
    ensures Ok(WithCount(s, v), h + [v])
  {
    VotesAppend(h, v);
    if v.count > 0 {
      AddCountMode(s, h, v);
    } else if s.modeFreq > 0 {
      var n :| FirstAt(h, s.mode, s.modeFreq, n);
      FirstKept(h, v, s.mode, s.modeFreq, n);
    }
  }

  lemma SetThresholdOk(s: State, h: seq<Vote>, threshold: int)
    requires Ok(s, h)
    ensures Ok(WithThreshold(s, threshold), h) && WithThreshold(s, threshold).threshold == threshold
  {
  }

  // ---- runs ---------------------------------------------------------------------------------

  datatype Call = AddCall(vote: Vote) | ThresholdCall(threshold: int)

  function Step(s: State, c: Call): State {
    match c
    case AddCall(v) => WithCount(s, v)
    case ThresholdCall(t) => WithThreshold(s, t)
  }

  function Run(calls: seq<Call>): State {
    if calls == [] then Empty else Step(Run(calls[..|calls| - 1]), calls[|calls| - 1])
  }

  function Added(calls: seq<Call>): seq<Vote> {
    if calls == [] then []
    else
      var h, c := Added(calls[..|calls| - 1]), calls[|calls| - 1];
      if c.AddCall? then h + [c.vote] else h
  }

  /** After any mix of additions and threshold changes: size, counts, mode and threshold set are those
      of the votes added. */
  lemma {:induction false} RunOk(calls: seq<Call>)
    ensures Ok(Run(calls), Added(calls))
  {
    if calls != [] {
      var n := |calls| - 1;
      RunOk(calls[..n]);
      match calls[n]
      case AddCall(v) => AddCountOk(Run(calls[..n]), Added(calls[..n]), v);
      case ThresholdCall(t) => SetThresholdOk(Run(calls[..n]), Added(calls[..n]), t);
    }
  }

  // ---- in place -----------------------------------------------------------------------------

  class Bag {
    var counts: map<Id, int>
    var size: int
    var mode: Id
    var modeFreq: int
    var threshold: int
    var met: set<Id>

    /** The votes added so far. */
    ghost var history: seq<Vote>

    ghost function View(): State
      reads this
    {
      State(counts, size, mode, modeFreq, threshold, met)
    }

    ghost predicate Valid()
      reads this
    {
      Ok(View(), history)
    }

    ghost function Contents(): multiset<Id>
      reads this
    {
      Votes(history)
    }

    constructor ()
      ensures Valid() && View() == Empty && history == []
    {
      counts, size, mode, modeFreq, threshold, met, history := map[], 0, ZERO_ID, 0, 0, {}, [];
    }

    /** The assignments of AddCount. */
    method CountFields(id: Id, count: int)
      modifies `counts, `size, `mode, `modeFreq, `met
      ensures View() == WithCount(old(View()), Vote(id, count))
    {
      if count <= 0 {
        return;
      }
      var total := CountOf(counts, id) + count;
      counts := counts[id := total];
      size := size + count;
      if total > modeFreq {
        mode := id;
        modeFreq := total;
      }
      if total >= threshold {
        met := met + {id};
      }
    }

    /** AddCount: the votes are those before and these. */
    method AddCount(id: Id, count: int)
      requires Valid()
      modifies this
      ensures Valid() && View() == WithCount(old(View()), Vote(id, count)) && history == old(history) + [Vote(id, count)]
    {
      AddCountOk(View(), history, Vote(id, count));
      CountFields(id, count);
      history := history + [Vote(id, count)];
    }

    method SetThreshold(t: int)
      requires Valid()
      modifies this
      ensures Valid() && View() == WithThreshold(old(View()), t) && history == old(history)
    {
      SetThresholdOk(View(), history, t);
      if threshold == t {
        return;
      }
      threshold := t;
      met := {};
      var left := counts.Keys;
      while left != {}
        invariant left <= counts.Keys && threshold == t && history == old(history)
        invariant View() == old(View()).(threshold := t, met := met)
        invariant met == set id | id in counts && id !in left && counts[id] >= t
        decreases |left|
      {
        var vote :| vote in left;
        if counts[vote] >= t {
          met := met + {vote};
        }
        left := left - {vote};
      }
      assert met == AtLeast(counts, t);
    }

    /** Add */
    method AddEach(ids: seq<Id>)
      requires Valid()
      modifies this
      ensures Valid() && Contents() == old(Contents()) + multiset(ids)
    {
      ghost var before := Contents();
      for i := 0 to |ids|
        invariant Valid() && Contents() == before + multiset(ids[..i])
      {
        VotesOne(history, ids[i]);
        OneMore(ids, i);
        AddCount(ids[i], 1);
      }
      assert ids[..|ids|] == ids;
    }

    /** One side only is looked at, yet the answer is whether the two hold the same votes. */
    method Equals(other: Bag) returns (same: bool)
      requires Valid() && other.Valid()
      ensures same <==> Contents() == other.Contents()
    {
      if size != other.size {
        return false;
      }
      var left := counts.Keys;
      while left != {}
        invariant left <= counts.Keys
        invariant forall id :: id in counts && id !in left ==> counts[id] == CountOf(other.counts, id)
        decreases |left|
      {
        var key :| key in left;
        if counts[key] != CountOf(other.counts, key) {
          assert CountOf(counts, key) == Contents()[key] && CountOf(other.counts, key) == other.Contents()[key];
          return false;
        }
        left := left - {key};
      }
      OneSideEnough(Contents(), other.Contents(), counts, other.counts);
      return true;
    }
  }

  /** What a loop over the counts has copied so far: the chosen votes, but for those in `left`. */
  ghost predicate Copied(votes: multiset<Id>, counts: map<Id, int>, left: set<Id>, keep: Id -> bool) {
    forall v :: votes[v] == if v in counts && v !in left && keep(v) && counts[v] > 0 then counts[v] else 0
  }

  /** The votes that satisfy `keep`. */
  ghost predicate Chosen(all: multiset<Id>, some: multiset<Id>, keep: Id -> bool) {
    forall v :: some[v] == if keep(v) then all[v] else 0
  }

  /** One vote, with its count, into the bag of the chosen ones. */
  method CopyVote(b: Bag, counts: map<Id, int>, ghost left: set<Id>, ghost keep: Id -> bool, vote: Id)
    requires b.Valid() && Copied(b.Contents(), counts, left, keep)
    requires vote in left && vote in counts && counts[vote] > 0 && keep(vote)
    modifies b
    ensures b.Valid() && Copied(b.Contents(), counts, left - {vote}, keep)
  {
    VotesAppend(b.history, Vote(vote, counts[vote]));
    b.AddCount(vote, counts[vote]);
  }

  ghost predicate AllPositive(counts: map<Id, int>) {
    forall v :: v in counts ==> counts[v] > 0
  }

  /** The loop of Filter, for any choice of votes. */
  method FilterBy(bag: Bag, keep: Id -> bool) returns (b: Bag)
    requires bag.Valid()
    ensures fresh(b) && b.Valid() && Chosen(bag.Contents(), b.Contents(), keep)
  {
    b := FilterCounts(bag.counts, keep);
  }

  method FilterCounts(counts: map<Id, int>, keep: Id -> bool) returns (b: Bag)
    requires AllPositive(counts)
    ensures fresh(b) && b.Valid() && Copied(b.Contents(), counts, {}, keep)
  {
    b := new Bag();
    var left := counts.Keys;
    while left != {}
      invariant fresh(b) && b.Valid() && left <= counts.Keys && Copied(b.Contents(), counts, left, keep)
      decreases |left|
    {
      var vote :| vote in left;
      if keep(vote) {
        CopyVote(b, counts, left, keep, vote);
      }
      left := left - {vote};
    }
  }

  /** Filter: the votes that agree with the ID on the bits from start to end. It panics exactly when the
      comparison does for one of the votes. */
  method Filter(bag: Bag, start: int, end: int, id: Id) returns (b: Bag, panics: bool)
    requires bag.Valid()
    ensures panics <==> exists v :: v in bag.counts && EqualSubset(start, end, id, v) == Panics
    ensures !panics ==> fresh(b) && b.Valid() && Chosen(bag.Contents(), b.Contents(), (v: Id) => EqualSubset(start, end, id, v) == Answer(true))
  {
    b := bag;
    panics := AnyPanics(bag.counts, start, end, id);
    if !panics {
      b := FilterBy(bag, (v: Id) => EqualSubset(start, end, id, v) == Answer(true));
    }
  }

  /** Whichever order the map is walked in, the loop reaches a vote that panics if there is one. */
  method AnyPanics(counts: map<Id, int>, start: int, end: int, id: Id) returns (panics: bool)
    ensures panics <==> exists v :: v in counts && EqualSubset(start, end, id, v) == Panics
  {
    var left := counts.Keys;
    while left != {}
      invariant left <= counts.Keys && forall v :: v in counts && v !in left ==> EqualSubset(start, end, id, v) != Panics
      decreases |left|
    {
      var vote :| vote in left;
      if EqualSubset(start, end, id, vote) == Panics {
        return true;
      }
      left := left - {vote};
    }
    return false;
  }

  lemma NoVotes(s: State, votes: multiset<Id>)
    requires CountsOk(s, votes)
    ensures s.counts == map[] <==> votes == multiset{}
  {
    if id :| id in s.counts { assert CountOf(s.counts, id) == votes[id]; }
    if id :| id in votes { assert CountOf(s.counts, id) == votes[id]; }
  }

  /** Split: the votes with a 0 and those with a 1 at the bit. It panics exactly if there is a vote and no
      such bit. */
  method Split(bag: Bag, index: nat) returns (zero: Bag, one: Bag, panics: bool)
    requires bag.Valid()
    ensures panics <==> index >= NUM_BITS && bag.Contents() != multiset{}
    ensures !panics ==> fresh(zero) && fresh(one) && zero != one && zero.Valid() && one.Valid()
    ensures index < NUM_BITS ==> Chosen(bag.Contents(), zero.Contents(), (v: Id) => index < NUM_BITS ==> !Bit(v, index))
    ensures index < NUM_BITS ==> Chosen(bag.Contents(), one.Contents(), (v: Id) => index < NUM_BITS && Bit(v, index))
    ensures !panics ==> zero.Contents() + one.Contents() == bag.Contents()
  {
    zero, one, panics := bag, bag, index >= NUM_BITS && bag.counts != map[];
    NoVotes(bag.View(), bag.Contents());
    if !panics {
      zero, one := SplitBy(bag, (v: Id) => index < NUM_BITS && Bit(v, index));
    }
  }

  method SplitBy(bag: Bag, bit: Id -> bool) returns (zero: Bag, one: Bag)
    requires bag.Valid()
    ensures fresh(zero) && fresh(one) && zero != one && zero.Valid() && one.Valid()
    ensures Chosen(bag.Contents(), one.Contents(), bit)
    ensures forall v :: zero.Contents()[v] == if bit(v) then 0 else bag.Contents()[v]
  {
    ghost var no := (v: Id) => !bit(v);
    zero, one := SplitCounts(bag.counts, bit, no);
  }

  method SplitCounts(counts: map<Id, int>, bit: Id -> bool, ghost no: Id -> bool) returns (zero: Bag, one: Bag)
    requires AllPositive(counts) && forall v :: no(v) == !bit(v)
    ensures fresh(zero) && fresh(one) && zero != one && zero.Valid() && one.Valid()
    ensures Copied(one.Contents(), counts, {}, bit) && Copied(zero.Contents(), counts, {}, no)
  {
    zero := new Bag();
    one := new Bag();
    var left := counts.Keys;
    while left != {}
      invariant fresh(zero) && fresh(one) && zero != one && zero.Valid() && one.Valid() && left <= counts.Keys
      invariant Copied(one.Contents(), counts, left, bit) && Copied(zero.Contents(), counts, left, no)
      decreases |left|
    {
      var vote :| vote in left;
      if bit(vote) {
        CopyVote(one, counts, left, bit, vote);
      } else {
        CopyVote(zero, counts, left, no, vote);
      }
      left := left - {vote};
    }
  }

  lemma VotesOne(h: seq<Vote>, id: Id)
    ensures Votes(h + [Vote(id, 1)]) == Votes(h) + multiset{id}
  {
    VotesAppend(h, Vote(id, 1));
  }

  lemma OneMore<T>(s: seq<T>, i: nat)
    requires i < |s|
    ensures multiset(s[..i + 1]) == multiset(s[..i]) + multiset{s[i]}
  {
    assert s[..i + 1] == s[..i] + [s[i]];
  }

  lemma OneSideEnough(a: multiset<Id>, b: multiset<Id>, ca: map<Id, int>, cb: map<Id, int>)
    requires |a| == |b| && (forall id :: CountOf(ca, id) == a[id]) && (forall id :: CountOf(cb, id) == b[id])
    requires forall id :: id in ca ==> ca[id] == CountOf(cb, id)
    ensures a == b
  {
    forall id
      ensures a[id] <= b[id]
    {
      assert CountOf(ca, id) == a[id] && CountOf(cb, id) == b[id];
    }
    SameSizeSame(a, b);
  }

  lemma SameSizeSame<T>(a: multiset<T>, b: multiset<T>)
    requires a <= b && |a| == |b|
    ensures a == b
  {
    assert b == a + (b - a);
    assert |b - a| == 0;
  }

  method BagOf(ids: seq<Id>) returns (bag: Bag)
    ensures fresh(bag) && bag.Valid() && bag.Contents() == multiset(ids)
  {
    bag := new Bag();
    bag.AddEach(ids);
  }

  /** Two lists have the same number of each ID. */
  method UnsortedEquals(a: seq<Id>, b: seq<Id>) returns (same: bool)
    ensures same <==> multiset(a) == multiset(b)
  {
    assert |multiset(a)| == |a| && |multiset(b)| == |b|;
    if |a| != |b| {
      return false;
    }
    var aBag := BagOf(a);
    var bBag := BagOf(b);
    same := aBag.Equals(bBag);
  }
}
